/** Every namespace operation, on every exit, keeps the upper graph a faithful
    image of the lower one and holds nothing below but what it owns. */
module Stacking {
  import opened Common
  import opened Namespace
  import LowerTree
  import Tally

  // ---------- ownership ----------

  lemma SizeAdded<T>(m: map<nat, T>, k: nat, v: T)
    requires k !in m
    ensures |m[k := v]| == |m| + 1
  {
  }

  lemma SizeRemoved<T>(m: map<nat, T>, k: nat)
    requires k in m
    ensures |m| > 0 && |m - {k}| == |m| - 1
  {
  }

  lemma TakePath(h: Held, path: map<nat, nat>, files: map<nat, nat>, d: nat, l: nat)
    requires PathsOwned(h, path, files) && d !in path
    ensures PathsOwned(h.GetPath(l), path[d := l], files)
  {
    Tally.Take(h.dentries, path, files, d, l);
    SizeAdded(path, d, l);
  }

  lemma GivePath(h: Held, path: map<nat, nat>, files: map<nat, nat>, d: nat)
    requires PathsOwned(h, path, files) && d in path
    ensures path[d] in h.dentries && h.mounts > 0 && PathsOwned(h.PutPath(path[d]), path - {d}, files)
  {
    Tally.Give(h.dentries, path, files, d);
    SizeRemoved(path, d);
  }

  lemma PathsSymmetric(h: Held, path: map<nat, nat>, files: map<nat, nat>)
    requires PathsOwned(h, path, files)
    ensures PathsOwned(h, files, path)
  {
  }

  lemma TakeFile(h: Held, path: map<nat, nat>, files: map<nat, nat>, f: nat, l: nat)
    requires PathsOwned(h, path, files) && f !in files
    ensures PathsOwned(h.GetPath(l), path, files[f := l])
  {
    PathsSymmetric(h, path, files);
    TakePath(h, files, path, f, l);
    PathsSymmetric(h.GetPath(l), files[f := l], path);
  }

  lemma GiveFile(h: Held, path: map<nat, nat>, files: map<nat, nat>, f: nat)
    requires PathsOwned(h, path, files) && f in files
    ensures files[f] in h.dentries && h.mounts > 0 && PathsOwned(h.PutPath(files[f]), path, files - {f})
  {
    PathsSymmetric(h, path, files);
    GivePath(h, files, path, f);
    PathsSymmetric(h.PutPath(files[f]), files - {f}, path);
  }

  // ---------- interposition ----------

  lemma InjectiveMore(inodes: map<nat, nat>, i: nat, li: nat)
    requires Injective(inodes) && i !in inodes && !Known(inodes, li)
    ensures Injective(inodes[i := li])
  {
    var more := inodes[i := li];
    forall x, y, z | StandsOn(more, x, z) && StandsOn(more, y, z)
      ensures x == y
    {
      assert x != i ==> StandsOn(inodes, x, z);
      assert y != i ==> StandsOn(inodes, y, z);
    }
  }

  lemma ApartFewer(u: Upper, v: Upper)
    requires Apart(u)
    requires forall e {:trigger Attached(v, e)} | Attached(v, e) && e in v.path ::
             Attached(u, e) && e in u.path && v.path[e] == u.path[e]
    ensures Apart(v)
  {
  }

  lemma DistinctFewer(u: Upper, v: Upper)
    requires Distinct(u) && v.root == u.root
    requires forall e {:trigger Attached(v, e)} | Attached(v, e) ::
               Attached(u, e) && v.dentries[e].parent == u.dentries[e].parent &&
               v.dentries[e].name == u.dentries[e].name
    ensures Distinct(v)
  {
  }

  /** Hashing a new dentry with the inode that stands on its lower inode. */
  lemma HashClosed(u: Upper, d: nat, i: nat)
    requires UpperClosed(u) && d in u.dentries && u.dentries[d].stage == New && d != u.root
    ensures UpperClosed(Hash(u, d, i))
  {
    var v := Hash(u, d, i);
    forall e | e in v.dentries
      ensures DentryClosed(v, e)
    {
      assert DentryClosed(u, e);
    }
  }

  /** `d` has just been given a lower inode: all else still stands square. */
  ghost predicate SquareBut(u: Upper, inodes: map<nat, nat>, l: Lower, d: nat) {
    forall e {:trigger SquareAt(u, inodes, l, e)} | e in u.dentries && e != d :: SquareAt(u, inodes, l, e)
  }

  lemma HashSquare(u: Upper, inodes: map<nat, nat>, low: Lower, d: nat, i: nat)
    requires SquareBut(u, inodes, low, d) && d in u.dentries && d != u.root && u.dentries[d].stage == New
    requires d in u.path && u.path[d] in low.parent && u.path[d] in low.name && u.path[d] in low.inode &&
             u.path[d] in low.hashed
    requires StandsOn(inodes, i, low.inode[u.path[d]])
    requires u.dentries[d].parent in u.path && low.parent[u.path[d]] == u.path[u.dentries[d].parent] &&
             low.name[u.path[d]] == u.dentries[d].name
    ensures Square(Hash(u, d, i), inodes, low)
  {
    var v := Hash(u, d, i);
    forall e | e in v.dentries
      ensures SquareAt(v, inodes, low, e)
    {
      assert e != d ==> SquareAt(u, inodes, low, e);
    }
  }

  /** A new dentry that stands on its lower dentry in everything but the inode. */
  ghost predicate Pending(u: Upper, low: Lower, d: nat) {
    && d in u.dentries && d != u.root && u.dentries[d].stage == New
    && d in u.path && u.path[d] in low.parent && u.path[d] in low.name && u.path[d] in low.hashed
    && u.dentries[d].parent in u.path
    && low.parent[u.path[d]] == u.path[u.dentries[d].parent] && low.name[u.path[d]] == u.dentries[d].name
  }

  /** Between the lower call and interposition: all holds but the square at `d`. */
  ghost predicate InvBut(w: World, d: nat) {
    && UpperClosed(w.up) && LowerClosed(w.low)
    && ValuesIn(w.low.inode, w.super) && ValuesIn(w.inodes, w.super)
    && SquareBut(w.up, w.inodes, w.low, d) && Pending(w.up, w.low, d)
    && Apart(w.up) && Distinct(w.up)
    && Injective(w.inodes)
    && LowerTree.IsTree(w.low.parent, w.top)
    && InodesOwned(w.grabs, w.inodes)
  }

  lemma SquareButMoreInodes(u: Upper, inodes: map<nat, nat>, low: Lower, d: nat, i: nat, li: nat)
    requires SquareBut(u, inodes, low, d) && i !in inodes
    ensures SquareBut(u, inodes[i := li], low, d)
  {
    forall e | e in u.dentries && e != d
      ensures SquareAt(u, inodes[i := li], low, e)
    {
      assert SquareAt(u, inodes, low, e);
    }
  }

  lemma IGetKeeps(w: World, d: nat, li: nat, supply: Option<nat>)
    requires InvBut(w, d) && li in w.super && (supply.Some? ==> supply.value !in w.inodes)
    requires supply.Some? || Known(w.inodes, li)
    ensures
      var (v, i) := IGet(w, li, supply);
      InvBut(v, d) && i.Some? && StandsOn(v.inodes, i.value, li) && v.up == w.up && v.low == w.low
  {
    if !Known(w.inodes, li) {
      SquareButMoreInodes(w.up, w.inodes, w.low, d, supply.value, li);
      InjectiveMore(w.inodes, supply.value, li);
      Tally.Take(w.grabs.inodes, w.inodes, map[], supply.value, li);
    }
  }

  /** Interposition closes the square, provided an inode could be had; when the
      lower inode is already known, it always can. */
  lemma InterposeKeeps(w: World, d: nat, supply: Option<nat>)
    requires InvBut(w, d) && Interposable(w, d) && w.super[w.low.inode[w.up.path[d]]] == w.sb
    requires supply.Some? ==> supply.value !in w.inodes
    requires supply.Some? || Known(w.inodes, w.low.inode[w.up.path[d]])
    ensures Inv(Interpose(w, d, supply).0) && Interpose(w, d, supply).1 == 0
  {
    var li := w.low.inode[w.up.path[d]];
    IGetKeeps(w, d, li, supply);
    var (v, i) := IGet(w, li, supply);
    HashClosed(v.up, d, i.value);
    ApartFewer(v.up, Hash(v.up, d, i.value));
    DistinctFewer(v.up, Hash(v.up, d, i.value));
    HashSquare(v.up, v.inodes, v.low, d, i.value);
  }

  // ---------- lookup ----------

  lemma AddClosed(u: Upper, d: nat, e: Dentry, l: nat)
    requires UpperClosed(u) && d !in u.dentries && e.stage == New && e.inode == None
    requires e.parent in u.dentries && u.dentries[e.parent].stage == Hashed
    ensures UpperClosed(u.(dentries := u.dentries[d := e], path := u.path[d := l]))
  {
    var v := u.(dentries := u.dentries[d := e], path := u.path[d := l]);
    forall x | x in v.dentries
      ensures DentryClosed(v, x)
    {
      assert x != d ==> DentryClosed(u, x);
    }
  }

  /** No attached dentry stands on the lower dentry that a lookup found: it
      would have the same name in the same directory. */
  lemma FoundIsFree(w: World, p: nat, name: string, l: nat, x: nat)
    requires UpperClosed(w.up) && Square(w.up, w.inodes, w.low) && Apart(w.up)
    requires Attached(w.up, p) && ChildBelow(w, p, name, l) && l != w.up.path[w.up.root]
    requires forall e | Attached(w.up, e) && e != w.up.root ::
             !(w.up.dentries[e].parent == p && w.up.dentries[e].name == name)
    requires Attached(w.up, x)
    ensures w.up.path[x] != l
  {
    assert SquareAt(w.up, w.inodes, w.low, x) && DentryClosed(w.up, x);
    assert x != w.up.root ==> Attached(w.up, w.up.dentries[x].parent);
  }

  lemma AddApart(u: Upper, d: nat, e: Dentry, l: nat)
    requires UpperClosed(u) && Apart(u) && d !in u.dentries && forall x | Attached(u, x) :: u.path[x] != l
    ensures Apart(u.(dentries := u.dentries[d := e], path := u.path[d := l]))
  {
    var v := u.(dentries := u.dentries[d := e], path := u.path[d := l]);
    assert forall x | Attached(v, x) && x != d :: Attached(u, x);
  }

  lemma AddDistinct(u: Upper, d: nat, e: Dentry, l: nat)
    requires Distinct(u) && d !in u.dentries
    requires forall x | Attached(u, x) && x != u.root ::
             !(u.dentries[x].parent == e.parent && u.dentries[x].name == e.name)
    ensures Distinct(u.(dentries := u.dentries[d := e], path := u.path[d := l]))
  {
    var v := u.(dentries := u.dentries[d := e], path := u.path[d := l]);
    assert forall x | Attached(v, x) && x != d :: Attached(u, x);
  }

  lemma AddSquareBut(u: Upper, inodes: map<nat, nat>, low: Lower, d: nat, e: Dentry, l: nat)
    requires UpperClosed(u) && Square(u, inodes, low) && d !in u.dentries
    ensures SquareBut(u.(dentries := u.dentries[d := e], path := u.path[d := l]), inodes, low, d)
  {
    var v := u.(dentries := u.dentries[d := e], path := u.path[d := l]);
    forall x | x in v.dentries && x != d
      ensures SquareAt(v, inodes, low, x)
    {
      assert SquareAt(u, inodes, low, x) && DentryClosed(u, x);
    }
  }

  /** A new dentry over the lower dentry of its name. */
  lemma AddDentryKeeps(w: World, p: nat, name: string, d: nat, l: nat)
    requires Inv(w) && Attached(w.up, p) && w.up.dentries[p].stage == Hashed && d !in w.up.dentries
    requires ChildBelow(w, p, name, l) && l != w.up.path[w.up.root]
    requires forall e | Attached(w.up, e) && e != w.up.root ::
             !(w.up.dentries[e].parent == p && w.up.dentries[e].name == name)
    ensures InvBut(AddDentry(w, d, Dentry(p, name, New, None), l), d)
  {
    var e := Dentry(p, name, New, None);
    forall x | Attached(w.up, x)
      ensures w.up.path[x] != l
    {
      FoundIsFree(w, p, name, l, x);
    }
    AddClosed(w.up, d, e, l);
    AddApart(w.up, d, e, l);
    AddDistinct(w.up, d, e, l);
    AddSquareBut(w.up, w.inodes, w.low, d, e, l);
  }

  lemma AddLowerKeeps(w: World, l: nat, parent: nat, name: string)
    requires Inv(w) && parent in w.low.parent
    ensures Inv(w.(low := AddLower(w.low, l, parent, name)))
  {
    if l !in w.low.parent {
      LowerTree.LeafKeepsTree(w.low.parent, w.top, l, parent);
      AddLowerSquare(w.up, w.inodes, w.low, l, parent, name);
    }
  }

  lemma AddLowerSquare(u: Upper, inodes: map<nat, nat>, low: Lower, l: nat, parent: nat, name: string)
    requires Square(u, inodes, low) && l !in low.parent
    ensures Square(u, inodes, AddLower(low, l, parent, name))
  {
    forall d | d in u.dentries
      ensures SquareAt(u, inodes, AddLower(low, l, parent, name), d)
    {
      assert SquareAt(u, inodes, low, d);
    }
  }

  lemma ClosesSquare(w: World, d: nat)
    requires InvBut(w, d) && w.up.path[d] !in w.low.inode
    ensures Inv(w)
  {
    assert DentryClosed(w.up, d);
    assert SquareAt(w.up, w.inodes, w.low, d);
  }

  /** wrapfs_lookup keeps everything, on every exit, if an inode can be had for
      a lower inode not seen before. */
  lemma LookupKeeps(w: World, p: nat, name: string, d: nat, create: bool, o: LookupOutcome, supply: Option<nat>)
    requires Inv(w) && CanLookup(w, p, name, d, o, supply)
    requires o.Found? ==> supply.Some? || Known(w.inodes, w.low.inode[o.l]) || w.super[w.low.inode[o.l]] != w.sb
    ensures Inv(Lookup(w, p, name, d, create, o, supply).0)
  {
    if o.Found? {
      if w.super[w.low.inode[o.l]] == w.sb {
        AddDentryKeeps(w, p, name, d, o.l);
        InterposeKeeps(AddDentry(w, d, Dentry(p, name, New, None), o.l), d, supply);
      }
    } else if o.Missing? && o.neg.Some? {
      LookupMissingKeeps(w, p, name, d, create, o.neg.value, supply);
    }
  }

  lemma RootPositive(w: World)
    requires Inv(w)
    ensures w.up.root in w.up.path && w.up.path[w.up.root] in w.low.inode && w.up.path[w.up.root] in w.low.parent
  {
    assert SquareAt(w.up, w.inodes, w.low, w.up.root) && DentryClosed(w.up, w.up.root);
  }

  /** After the lower dentry is found or allocated, it is the name's negative child. */
  lemma MissingLower(w: World, p: nat, name: string, d: nat, l: nat, supply: Option<nat>)
    requires Inv(w) && CanLookup(w, p, name, d, Missing(Some(l)), supply)
    ensures
      var v := w.(low := AddLower(w.low, l, w.up.path[p], name));
      Inv(v) && ChildBelow(v, p, name, l) && l !in v.low.inode
  {
    assert SquareAt(w.up, w.inodes, w.low, p);
    AddLowerKeeps(w, l, w.up.path[p], name);
  }

  /** A dentry looked up for creation, over a negative lower dentry. */
  lemma NegativeDentryKeeps(w: World, p: nat, name: string, d: nat, l: nat)
    requires Inv(w) && Attached(w.up, p) && w.up.dentries[p].stage == Hashed && d !in w.up.dentries
    requires ChildBelow(w, p, name, l) && l !in w.low.inode
    requires forall e | Attached(w.up, e) && e != w.up.root ::
             !(w.up.dentries[e].parent == p && w.up.dentries[e].name == name)
    ensures Inv(AddDentry(w, d, Dentry(p, name, New, None), l))
  {
    RootPositive(w);
    AddDentryKeeps(w, p, name, d, l);
    ClosesSquare(AddDentry(w, d, Dentry(p, name, New, None), l), d);
  }

  lemma MissingCases(w: World, p: nat, name: string, d: nat, create: bool, l: nat, supply: Option<nat>)
    requires CanLookup(w, p, name, d, Missing(Some(l)), supply)
    ensures
      var v := w.(low := AddLower(w.low, l, w.up.path[p], name));
      Lookup(w, p, name, d, create, Missing(Some(l)), supply).0 ==
      if create then AddDentry(v, d, Dentry(p, name, New, None), l) else v
  {
  }

  lemma LookupMissingKeeps(w: World, p: nat, name: string, d: nat, create: bool, l: nat, supply: Option<nat>)
    requires Inv(w) && CanLookup(w, p, name, d, Missing(Some(l)), supply)
    ensures Inv(Lookup(w, p, name, d, create, Missing(Some(l)), supply).0)
  {
    MissingLower(w, p, name, d, l, supply);
    MissingCases(w, p, name, d, create, l, supply);
    var v := Lookup(w, p, name, d, create, Missing(Some(l)), supply).0;
    if create {
      NegativeDentryKeeps(w.(low := AddLower(w.low, l, w.up.path[p], name)), p, name, d, l);
      assert Inv(v);
    } else {
      assert Inv(v);
    }
  }

  // ---------- create, symlink, mkdir, mknod, link ----------

  /** Giving the lower dentry of a new dentry an inode upsets no other square. */
  lemma InstantiateSquareBut(u: Upper, inodes: map<nat, nat>, low: Lower, d: nat, li: nat)
    requires Square(u, inodes, low) && Apart(u) && d in u.dentries && u.dentries[d].stage == New && d in u.path
    ensures SquareBut(u, inodes, low.(inode := low.inode[u.path[d] := li]), d)
  {
    assert SquareAt(u, inodes, low, d) && Attached(u, d);
    forall e | e in u.dentries && e != d
      ensures SquareAt(u, inodes, low.(inode := low.inode[u.path[d] := li]), e)
    {
      assert SquareAt(u, inodes, low, e);
      assert u.dentries[e].stage != Dropped ==> Attached(u, e);
    }
  }

  lemma NewIsPending(w: World, d: nat, inode: map<nat, nat>)
    requires Inv(w) && d in w.up.dentries && w.up.dentries[d].stage == New && d != w.up.root
    ensures Pending(w.up, w.low.(inode := inode), d)
  {
    assert SquareAt(w.up, w.inodes, w.low, d);
  }

  lemma LowerMakeKeeps(w: World, kind: Kind, d: nat, o: MakeOutcome)
    requires Inv(w) && CanMake(w, kind, d, o) && o.want == 0 && o.create == 0
    ensures InvBut(LowerMake(w, d, o.li, o.links, o.dirLinks), d)
  {
    InstantiateSquareBut(w.up, w.inodes, w.low, d, o.li);
    NewIsPending(w, d, w.low.inode[w.up.path[d] := o.li]);
  }

  /** create, symlink, mkdir and mknod keep everything, on every exit, if an
      inode can be had once the lower one exists. */
  lemma MakeKeeps(w: World, kind: Kind, d: nat, o: MakeOutcome)
    requires Inv(w) && CanMake(w, kind, d, o)
    requires o.want == 0 && o.create == 0 ==> o.supply.Some?
    ensures Inv(Make(w, kind, d, o).0)
  {
    if o.want == 0 && o.create == 0 {
      LowerMakeKeeps(w, kind, d, o);
      InterposeKeeps(LowerMake(w, d, o.li, o.links, o.dirLinks), d, o.supply);
    }
  }

  /** link keeps everything, on every exit: its interposition cannot fail,
      because the linked inode is already known. */
  lemma LinkKeeps(w: World, src: nat, d: nat, o: LinkOutcome)
    requires Inv(w) && CanLink(w, src, d, o)
    ensures Inv(Link(w, src, d, o).0)
    ensures o.want == 0 && o.link == 0 ==> Link(w, src, d, o).1 == 0
  {
    if o.want == 0 && o.link == 0 && o.instantiated {
      var i := w.up.dentries[src].inode.value;
      var inode := w.low.inode[w.up.path[d] := w.inodes[i]];
      InstantiateSquareBut(w.up, w.inodes, w.low, d, w.inodes[i]);
      NewIsPending(w, d, inode);
      assert StandsOn(w.inodes, i, w.inodes[i]);
      var v := w.(lowerLinks := w.lowerLinks[w.inodes[i] := o.links], low := w.low.(inode := inode));
      InterposeKeeps(v, d, o.supply);
    }
  }

  // ---------- unlink and rmdir ----------

  lemma DropClosed(u: Upper, d: nat)
    requires UpperClosed(u) && d in u.dentries && d != u.root && NoChildren(u, d)
    ensures UpperClosed(Drop(u, d))
  {
    var v := Drop(u, d);
    forall e | e in v.dentries
      ensures DentryClosed(v, e)
    {
      assert DentryClosed(u, e);
      assert Attached(v, e) ==> Attached(u, e);
    }
  }

  lemma DropSquare(u: Upper, inodes: map<nat, nat>, low: Lower, d: nat, hashed: set<nat>)
    requires Square(u, inodes, low) && Apart(u) && Attached(u, d) && d in u.path
    requires hashed == low.hashed || hashed == low.hashed - {u.path[d]}
    ensures Square(Drop(u, d), inodes, low.(hashed := hashed))
  {
    forall e | e in u.dentries
      ensures SquareAt(Drop(u, d), inodes, low.(hashed := hashed), e)
    {
      assert SquareAt(u, inodes, low, e);
      assert Attached(u, e) && e != d ==> u.path[e] != u.path[d];
    }
  }

  /** unlink and rmdir keep everything, on every exit. */
  lemma RemoveKeeps(w: World, isDir: bool, d: nat, o: RemoveOutcome)
    requires Inv(w) && CanRemove(w, isDir, d, o)
    ensures Inv(Remove(w, isDir, d, o).0)
  {
    DropClosed(w.up, d);
    ApartFewer(w.up, Drop(w.up, d));
    DistinctFewer(w.up, Drop(w.up, d));
    DropSquare(w.up, w.inodes, w.low, d, w.low.hashed);
    DropSquare(w.up, w.inodes, w.low, d, w.low.hashed - {w.up.path[d]});
  }

  // ---------- rename ----------

  lemma MoveClosed(u: Upper, a: nat, b: nat)
    requires UpperClosed(u) && Attached(u, a) && Attached(u, b) && a != b && a != u.root && b != u.root
    requires u.dentries[a].stage == Hashed && NoChildren(u, b) && u.dentries[b].parent != a
    ensures UpperClosed(UpperMove(u, a, b))
  {
    forall e | e in u.dentries
      ensures DentryClosed(UpperMove(u, a, b), e)
    {
      MovedEntryClosed(u, a, b, e);
    }
  }

  lemma MovedEntryClosed(u: Upper, a: nat, b: nat, e: nat)
    requires UpperClosed(u) && Attached(u, a) && Attached(u, b) && a != b && a != u.root && b != u.root
    requires u.dentries[a].stage == Hashed && NoChildren(u, b) && u.dentries[b].parent != a && e in u.dentries
    ensures DentryClosed(UpperMove(u, a, b), e)
  {
    assert DentryClosed(u, a) && DentryClosed(u, b) && DentryClosed(u, e);
    if e != a && e != b && !u.dentries[e].stage.Dropped? && e != u.root {
      assert Attached(u, e) && u.dentries[e].parent != b;
    }
  }

  /** `a` takes the one place that `b` had. */
  lemma MoveDistinct(u: Upper, a: nat, b: nat)
    requires Distinct(u) && Attached(u, a) && Attached(u, b) && a != b && a != u.root && b != u.root
    ensures Distinct(UpperMove(u, a, b))
  {
    var v := UpperMove(u, a, b);
    assert forall e | Attached(v, e) :: Attached(u, e);
  }

  /** The upper and the lower move match: every square still commutes. */
  lemma MoveSquare(u: Upper, inodes: map<nat, nat>, low: Lower, a: nat, b: nat)
    requires UpperClosed(u) && Apart(u) && Square(u, inodes, low)
    requires Attached(u, a) && Attached(u, b) && a != b && a != u.root && b != u.root
    requires u.path[a] in low.parent && u.path[b] in low.parent && u.path[a] in low.name && u.path[b] in low.name
    ensures Square(UpperMove(u, a, b), inodes, LowerMove(low, u.path[a], u.path[b]))
  {
    var v, after := UpperMove(u, a, b), LowerMove(low, u.path[a], u.path[b]);
    assert SquareAt(u, inodes, low, a) && SquareAt(u, inodes, low, b) && DentryClosed(u, a) && DentryClosed(u, b);
    forall e | e in v.dentries
      ensures SquareAt(v, inodes, after, e)
    {
      assert SquareAt(u, inodes, low, e);
      assert u.dentries[e].stage != Dropped ==> Attached(u, e);
    }
  }

  /** Different upper inodes stand on different lower ones, so the lower rename
      never finds two names of one inode and never stays put. */
  lemma NeverSameInode(w: World, a: nat, b: nat, o: RenameOutcome)
    requires Inv(w) && CanRename(w, a, b, o)
    ensures !SameInode(w.low, w.up.path[a], w.up.path[b])
  {
    assert SquareAt(w.up, w.inodes, w.low, a) && SquareAt(w.up, w.inodes, w.low, b);
    assert DentryClosed(w.up, a) && DentryClosed(w.up, b);
    var i := w.up.dentries[a].inode.value;
    if SameInode(w.low, w.up.path[a], w.up.path[b]) {
      var j := w.up.dentries[b].inode.value;
      assert StandsOn(w.inodes, i, w.inodes[i]) && StandsOn(w.inodes, j, w.inodes[i]);
    }
  }

  /** Nothing below a non-root dentry is the root of the lower tree. */
  lemma NotTop(u: Upper, inodes: map<nat, nat>, low: Lower, top: nat, d: nat)
    requires UpperClosed(u) && Square(u, inodes, low) && Apart(u) && top in low.parent && low.parent[top] == top
    requires Attached(u, d) && d != u.root
    ensures u.path[d] != top
  {
    assert SquareAt(u, inodes, low, d) && DentryClosed(u, d);
    assert Attached(u, u.dentries[d].parent);
  }

  lemma RenamedTree(w: World, a: nat, b: nat, o: RenameOutcome)
    requires Inv(w) && CanRename(w, a, b, o) && !UnderItself(w, a, b) && !UnderItself(w, b, a)
    ensures LowerTree.IsTree(LowerTree.Swapped(w.low.parent, w.up.path[a], w.up.path[b]), w.top)
  {
    assert Attached(w.up, a) && Attached(w.up, b);
    NotTop(w.up, w.inodes, w.low, w.top, a);
    NotTop(w.up, w.inodes, w.low, w.top, b);
    LowerTree.SwapKeepsTree(w.low.parent, w.top, w.up.path[a], w.up.path[b]);
  }

  /** The trap tests keep the moved dentry from its own directory, above as below. */
  lemma NotOwnParent(w: World, a: nat, b: nat, o: RenameOutcome)
    requires Inv(w) && CanRename(w, a, b, o) && !UnderItself(w, a, b) && !UnderItself(w, b, a)
    ensures w.up.dentries[b].parent != a
  {
    assert SquareAt(w.up, w.inodes, w.low, b);
    LowerTree.UnderSelf(w.low.parent, w.low.parent[w.up.path[b]]);
  }

  /** Link counts apart, a rename is the two moves. */
  lemma RenamedShape(w: World, a: nat, b: nat, o: RenameOutcome)
    requires Inv(w) && CanRename(w, a, b, o)
    ensures
      var v := Renamed(w, a, b, o);
      && v.up == UpperMove(w.up, a, b) && v.low == LowerMove(w.low, w.up.path[a], w.up.path[b])
      && v == w.(up := v.up, low := v.low, links := v.links, lowerLinks := v.lowerLinks)
  {
    NeverSameInode(w, a, b, o);
  }

  lemma MovedParts(w: World, a: nat, b: nat, o: RenameOutcome)
    requires Inv(w) && CanRename(w, a, b, o) && !UnderItself(w, a, b) && !UnderItself(w, b, a)
    ensures
      var u, low := UpperMove(w.up, a, b), LowerMove(w.low, w.up.path[a], w.up.path[b]);
      UpperClosed(u) && Apart(u) && Distinct(u) && Square(u, w.inodes, low)
  {
    NotOwnParent(w, a, b, o);
    assert Attached(w.up, a) && Attached(w.up, b);
    MoveUpper(w.up, a, b);
    MoveSquare(w.up, w.inodes, w.low, a, b);
  }

  lemma MoveUpper(u: Upper, a: nat, b: nat)
    requires UpperClosed(u) && Apart(u) && Distinct(u) && Attached(u, a) && Attached(u, b)
    requires a != b && a != u.root && b != u.root
    requires u.dentries[a].stage == Hashed && NoChildren(u, b) && u.dentries[b].parent != a
    ensures
      var v := UpperMove(u, a, b);
      UpperClosed(v) && Apart(v) && Distinct(v)
  {
    MoveClosed(u, a, b);
    ApartFewer(u, UpperMove(u, a, b));
    MoveDistinct(u, a, b);
  }

  lemma RenamedKeeps(w: World, a: nat, b: nat, o: RenameOutcome)
    requires Inv(w) && CanRename(w, a, b, o) && !UnderItself(w, a, b) && !UnderItself(w, b, a)
    ensures Inv(Renamed(w, a, b, o))
  {
    RenamedShape(w, a, b, o);
    RenamedTree(w, a, b, o);
    MovedParts(w, a, b, o);
  }

  lemma RenameCases(w: World, a: nat, b: nat, o: RenameOutcome)
    requires LowerTree.Closed(w.low.parent) && CanRename(w, a, b, o)
    ensures
      var (v, err) := Rename(w, a, b, o);
      if err != 0 then v == w else !UnderItself(w, a, b) && !UnderItself(w, b, a) && v == Renamed(w, a, b, o)
  {
  }

  /** rename keeps everything, on every exit, the lower tree included. */
  lemma RenameKeeps(w: World, a: nat, b: nat, o: RenameOutcome)
    requires Inv(w) && CanRename(w, a, b, o)
    ensures Inv(Rename(w, a, b, o).0)
  {
    RenameCases(w, a, b, o);
    if Rename(w, a, b, o).1 == 0 {
      RenamedKeeps(w, a, b, o);
    }
  }

  // ---------- the ends of lives ----------

  lemma ReleaseClosed(u: Upper, d: nat)
    requires UpperClosed(u) && d in u.dentries && d != u.root
    requires forall e | e in u.dentries && e != d :: u.dentries[e].parent != d
    ensures UpperClosed(u.(dentries := u.dentries - {d}, path := u.path - {d}))
  {
    var v := u.(dentries := u.dentries - {d}, path := u.path - {d});
    forall e | e in v.dentries
      ensures DentryClosed(v, e)
    {
      assert DentryClosed(u, e);
    }
  }

  lemma ReleaseSquare(u: Upper, inodes: map<nat, nat>, low: Lower, d: nat)
    requires Square(u, inodes, low) && forall e | e in u.dentries && e != d :: u.dentries[e].parent != d
    ensures Square(u.(dentries := u.dentries - {d}, path := u.path - {d}), inodes, low)
  {
    var v := u.(dentries := u.dentries - {d}, path := u.path - {d});
    forall e | e in v.dentries
      ensures SquareAt(v, inodes, low, e)
    {
      assert SquareAt(u, inodes, low, e);
    }
  }

  lemma ReleaseKeeps(w: World, d: nat)
    requires Inv(w) && CanRelease(w, d)
    ensures Inv(Release(w, d))
  {
    ReleaseClosed(w.up, d);
    ApartFewer(w.up, w.up.(dentries := w.up.dentries - {d}, path := w.up.path - {d}));
    DistinctFewer(w.up, w.up.(dentries := w.up.dentries - {d}, path := w.up.path - {d}));
    ReleaseSquare(w.up, w.inodes, w.low, d);
  }

  /** The invariant does not speak of link counts and open files. */
  lemma InvIgnores(w: World, links: multiset<nat>, files: map<nat, nat>, opens: map<nat, nat>)
    requires Inv(w)
    ensures Inv(w.(links := links, files := files, opens := opens))
  {
  }

  lemma SetattrKeeps(w: World, d: nat, changeOk: int, sizeOk: int, notify: int)
    requires Inv(w) && CanSetattr(w, d)
    ensures Inv(Setattr(w, d, changeOk, sizeOk, notify).0)
  {
    var v := Setattr(w, d, changeOk, sizeOk, notify).0;
    InvIgnores(w, v.links, w.files, w.opens);
  }

  lemma OpenKeeps(w: World, f: nat, d: nat, noMemory: bool, lowerErr: int)
    requires Inv(w) && d in w.up.dentries && d in w.up.path
    ensures Inv(Open(w, f, d, noMemory, lowerErr).0)
  {
    var v := Open(w, f, d, noMemory, lowerErr).0;
    InvIgnores(w, w.links, v.files, v.opens);
  }

  lemma CloseKeeps(w: World, f: nat)
    requires Inv(w)
    ensures Inv(Close(w, f))
  {
    InvIgnores(w, w.links, w.files - {f}, w.opens - {f});
  }

  lemma EvictSquare(u: Upper, inodes: map<nat, nat>, low: Lower, i: nat)
    requires Square(u, inodes, low) && forall d | d in u.dentries :: u.dentries[d].inode != Some(i)
    ensures Square(u, inodes - {i}, low)
  {
    forall d | d in u.dentries
      ensures SquareAt(u, inodes - {i}, low, d)
    {
      assert SquareAt(u, inodes, low, d);
    }
  }

  lemma EvictKeeps(w: World, i: nat)
    requires Inv(w) && CanEvict(w, i)
    ensures w.inodes[i] in w.grabs.inodes
    ensures Inv(Evict(w, i))
  {
    Tally.Give(w.grabs.inodes, w.inodes, map[], i);
    EvictSquare(w.up, w.inodes, w.low, i);
    assert forall j, li | StandsOn(w.inodes - {i}, j, li) :: StandsOn(w.inodes, j, li);
  }
}
