/** The namespace operations as they run: every reference taken and put, every
    lock and write claim, every goto. Each is proved to have the effect that
    Namespace states and, whatever the lower calls return, to end holding what
    it held when it started, but for the path of a dentry or file it made. */
module Wrapfs {
  import opened Common
  import opened Namespace
  import opened InodeIndex
  import LowerTree
  import Tally

  /** `h` is `g` with what an operation in a directory holds: the lower path and
      the locked lower parent. */
  ghost predicate Holding(g: Held, h: Held, l: nat, dir: nat, i: nat) {
    && h.dentries == g.dentries + multiset{l} + multiset{dir} && h.mounts == g.mounts + 1
    && h.mutexes == g.mutexes + multiset{i} && h.writers == g.writers
    && h.supers == g.supers && h.info == g.info
  }

  lemma AddRemove(b: multiset<nat>, x: nat)
    ensures x in b + multiset{x} && b + multiset{x} - multiset{x} == b
  {
  }

  lemma PutBack(g: Held, h: Held, l: nat, dir: nat, i: nat)
    requires Holding(g, h, l, dir, i)
    ensures i in h.mutexes && dir in h.dentries && l in h.Unlock(i).Dput(dir).dentries
    ensures h.Unlock(i).Dput(dir).PutPath(l) == g
  {
    AddRemove(g.mutexes, i);
    AddRemove(g.dentries + multiset{l}, dir);
    AddRemove(g.dentries, l);
  }

  lemma PutBackPath(g: Held, l: nat)
    ensures l in g.GetPath(l).dentries && g.GetPath(l).PutPath(l) == g
    ensures l in g.Dget(l).dentries && g.Dget(l).Dput(l) == g
  {
  }

  lemma PathsCommute(g: Held, l: nat, m: nat)
    ensures l in g.GetPath(l).GetPath(m).dentries && g.GetPath(l).GetPath(m).PutPath(l) == g.GetPath(m)
  {
  }

  /** An interposition that fails has at most put an inode it did not hold. */
  lemma InterposeFails(w: World, d: nat, supply: Option<nat>)
    requires Interposable(w, d)
    ensures
      var r := Namespace.Interpose(w, d, supply);
      && r.0.up.path == w.up.path
      && (r.1 != 0 ==> r.0 == w.(grabs := r.0.grabs))
  {
  }

  lemma RootAlone(u: Upper, low: Lower, l: nat, i: nat)
    requires LowerClosed(low) && l in low.inode
    requires u == Upper(u.root, map[u.root := Dentry(u.root, "/", Hashed, Some(i))], map[u.root := l])
    ensures UpperClosed(u) && Square(u, map[i := low.inode[l]], low) && Apart(u) && Distinct(u)
  {
  }

  /** The state right after wrapfs_read_super: the root dentry and its inode, and
      the inode reference it owns. */
  function FreshMount(top: nat, sb: nat, low: Lower, super: map<nat, nat>, lowerLinks: multiset<nat>, root: nat,
                      i: nat, l: nat): World
    requires l in low.inode
  {
    World(Upper(root, map[root := Dentry(root, "/", Hashed, Some(i))], map[root := l]),
          map[i := low.inode[l]], multiset{}[i := lowerLinks[low.inode[l]]], low, top, sb, super, lowerLinks,
          map[], map[], Grabs(multiset{low.inode[l]}, multiset{}))
  }

  lemma FreshMountInv(top: nat, sb: nat, low: Lower, super: map<nat, nat>, lowerLinks: multiset<nat>, root: nat,
                      i: nat, l: nat)
    requires LowerClosed(low) && LowerTree.IsTree(low.parent, top) && ValuesIn(low.inode, super) && l in low.inode
    ensures
      var w := FreshMount(top, sb, low, super, lowerLinks, root, i, l);
      Inv(w) && Mirror(w.inodes, w.links, w.lowerLinks)
    ensures PathsOwned(Held(multiset{l}, 1, multiset{}, 0, 1, true), map[root := l], map[])
  {
    var w := FreshMount(top, sb, low, super, lowerLinks, root, i, l);
    RootAlone(w.up, low, l, i);
    OneEntry(i, low.inode[l]);
    OneEntry(root, l);
  }

  lemma OneEntry(k: nat, v: nat)
    ensures Tally.Matches(multiset{v}, map[k := v], map[])
  {
    assert Tally.Matches(multiset{}, map[], map[]) by {
      assert forall x: nat :: Tally.Pointing(map[], x) == {};
    }
    Tally.Take(multiset{}, map[], map[], k, v);
    assert multiset{} + multiset{v} == multiset{v};
  }

  lemma OneIndexed(ino: nat -> nat, i: nat, li: nat)
    ensures Indexed(map[ino(li) := [i]], map[i := li], ino)
  {
  }

  /** The part of struct nameidata that wrapfs lends to the lower file system. */
  class Nameidata {
    var dentry: nat

    constructor (d: nat)
      ensures dentry == d
    {
      dentry := d;
    }
  }

  class Mount {
    const ino: nat -> nat    // lower inode numbers
    const top: nat
    const sb: nat
    var up: Upper
    var inodes: map<nat, nat>
    var links: multiset<nat>
    var low: Lower
    var super: map<nat, nat>
    var lowerLinks: multiset<nat>
    var files: map<nat, nat>
    var opens: map<nat, nat>
    var grabs: Grabs
    var chains: Chains
    var held: Held

    function State(): World
      reads this
    {
      World(up, inodes, links, low, top, sb, super, lowerLinks, files, opens, grabs)
    }

    ghost predicate Valid()
      reads this
    {
      Inv(State()) && PathsOwned(held, up.path, files) && Indexed(chains, inodes, ino)
    }

    /** What an operation needs of a valid state when it starts. */
    ghost predicate Ready()
      reads this
    {
      Indexed(chains, inodes, ino) && Injective(inodes) && held.mutexes == multiset{}
    }

    /** A fresh mount of `root` on the lower dentry `l`. */
    constructor (ino: nat -> nat, top: nat, sb: nat, low: Lower, super: map<nat, nat>, lowerLinks: multiset<nat>,
                 root: nat, i: nat, l: nat)
      requires LowerClosed(low) && LowerTree.IsTree(low.parent, top) && ValuesIn(low.inode, super) && l in low.inode
      ensures Valid()
      ensures State() == FreshMount(top, sb, low, super, lowerLinks, root, i, l)
      ensures held == Held(multiset{l}, 1, multiset{}, 0, 1, true)
    {
      var li := low.inode[l];
      this.ino, this.top, this.sb, this.low, this.super, this.lowerLinks := ino, top, sb, low, super, lowerLinks;
      up := Upper(root, map[root := Dentry(root, "/", Hashed, Some(i))], map[root := l]);
      inodes, links := map[i := li], multiset{}[i := lowerLinks[li]];
      files, opens := map[], map[];
      grabs := Grabs(multiset{li}, multiset{});
      held := Held(multiset{l}, 1, multiset{}, 0, 1, true);
      chains := map[ino(li) := [i]];
      new;
      FreshMountInv(top, sb, low, super, lowerLinks, root, i, l);
      OneIndexed(ino, i, li);
    }

    // ---------- wrapfs.h ----------

    method GetLowerPath(d: nat) returns (l: nat)
      requires d in up.path
      modifies this`held
      ensures l == up.path[d] && held == old(held).GetPath(l)
    {
      l := up.path[d];
      held := held.GetPath(l);
    }

    method PutLowerPath(l: nat)
      requires l in held.dentries && held.mounts > 0
      modifies this`held
      ensures held == old(held).PutPath(l)
    {
      held := held.PutPath(l);
    }

    method LockParent(l: nat) returns (dir: nat)
      requires l in low.parent && low.parent[l] in low.inode && low.inode[low.parent[l]] !in held.mutexes
      modifies this`held
      ensures dir == low.parent[l] && held == old(held).Dget(dir).Lock(low.inode[dir])
    {
      dir := low.parent[l];
      held := held.Dget(dir);
      held := held.Lock(low.inode[dir]);
    }

    method UnlockDir(dir: nat)
      requires dir in low.inode && low.inode[dir] in held.mutexes && dir in held.dentries
      modifies this`held
      ensures held == old(held).Unlock(low.inode[dir]).Dput(dir)
    {
      held := held.Unlock(low.inode[dir]);
      held := held.Dput(dir);
    }

    method MntWantWrite(result: int) returns (err: int)
      modifies this`held
      ensures err == result
      ensures held == if err == 0 then old(held).(writers := old(held).writers + 1) else old(held)
    {
      err := result;
      if err == 0 {
        held := held.(writers := held.writers + 1);
      }
    }

    method MntDropWrite()
      requires held.writers > 0
      modifies this`held
      ensures held == old(held).(writers := old(held).writers - 1)
    {
      held := held.(writers := held.writers - 1);
    }

    /** How the operations in a directory start. */
    method Enter(d: nat) returns (l: nat, dir: nat)
      requires d in up.path && up.path[d] in low.parent && low.parent[up.path[d]] in low.inode
      requires low.inode[low.parent[up.path[d]]] !in held.mutexes
      modifies this`held
      ensures l == up.path[d] && dir == low.parent[l] && Holding(old(held), held, l, dir, low.inode[dir])
    {
      l := GetLowerPath(d);
      dir := LockParent(l);
    }

    /** And how they all end. */
    method Leave(l: nat, dir: nat, ghost g: Held)
      requires dir in low.inode && Holding(g, held, l, dir, low.inode[dir])
      modifies this`held
      ensures held == g
    {
      PutBack(g, held, l, dir, low.inode[dir]);
      UnlockDir(dir);
      PutLowerPath(l);
    }

    // ---------- lookup.c ----------

    method IGet(li: nat, supply: Option<nat>) returns (i: Option<nat>)
      requires Indexed(chains, inodes, ino) && Injective(inodes)
      requires supply.Some? ==> supply.value !in inodes
      modifies this`inodes, this`links, this`grabs, this`chains
      ensures (State(), i) == Namespace.IGet(old(State()), li, supply)
      ensures Indexed(chains, inodes, ino)
    {
      i := Find(chains, inodes, ino, li);
      if i.Some? {
        return;
      }
      if supply.None? {
        grabs := grabs.(overput := grabs.overput + multiset{li});
        return;
      }
      InsertIndexes(chains, inodes, ino, supply.value, li);
      chains := Inserted(chains, ino(li), supply.value);
      grabs := grabs.(inodes := grabs.inodes + multiset{li});
      inodes := inodes[supply.value := li];
      links := links[supply.value := lowerLinks[li]];
      i := supply;
    }

    method Interpose(d: nat, supply: Option<nat>) returns (err: int)
      requires Indexed(chains, inodes, ino) && Injective(inodes) && Interposable(State(), d)
      requires supply.Some? ==> supply.value !in inodes
      modifies this`up, this`inodes, this`links, this`grabs, this`chains
      ensures (State(), err) == Namespace.Interpose(old(State()), d, supply)
      ensures Indexed(chains, inodes, ino)
    {
      var li := low.inode[up.path[d]];
      if super[li] != sb {
        return -EXDEV;
      }
      var i := IGet(li, supply);
      if i.None? {
        return -EACCES;
      }
      up := Hash(up, d, i.value);
      return 0;
    }

    // ---------- inode.c ----------

    /** vfs_create, vfs_symlink, vfs_mkdir or vfs_mknod on the lower dentry. */
    method VfsMake(d: nat, o: MakeOutcome) returns (err: int)
      requires d in up.path && up.path[d] in low.parent && low.parent[up.path[d]] in low.inode
      modifies this`low, this`super, this`lowerLinks
      ensures err == o.create
      ensures State() == if err == 0 then LowerMake(old(State()), d, o.li, o.links, o.dirLinks) else old(State())
    {
      err := o.create;
      if err == 0 {
        var l := up.path[d];
        var dir := low.inode[low.parent[l]];
        low, super := low.(inode := low.inode[l := o.li]), super[o.li := sb];
        lowerLinks := lowerLinks[o.li := o.links][dir := o.dirLinks];
      }
    }

    /** What lies between mnt_want_write and mnt_drop_write. */
    method MakeClaimed(kind: Kind, d: nat, nd: Nameidata, o: MakeOutcome) returns (err: int)
      requires Indexed(chains, inodes, ino) && Injective(inodes) && CanMake(State(), kind, d, o) && o.want == 0
      modifies this`up, this`inodes, this`links, this`low, this`super, this`lowerLinks, this`grabs, this`chains, nd
      ensures (State(), err) == Namespace.Make(old(State()), kind, d, o)
      ensures Indexed(chains, inodes, ino)
      ensures nd.dentry == old(nd.dentry)
      ensures low == if o.create != 0 then old(low) else old(low).(inode := old(low).inode[old(up).path[d] := o.li])
    {
      var dir := up.dentries[up.dentries[d].parent].inode.value;
      var saved := nd.dentry;
      if kind.Regular? {
        nd.dentry := up.path[d];
      }
      err := VfsMake(d, o);
      nd.dentry := saved;
      if err != 0 {
        return;
      }
      err := Interpose(d, o.supply);
      if err == 0 && kind.Directory? {
        links := links[dir := o.dirLinks];
      }
    }

    method MakeWriting(kind: Kind, d: nat, nd: Nameidata, o: MakeOutcome) returns (err: int)
      requires Indexed(chains, inodes, ino) && Injective(inodes) && CanMake(State(), kind, d, o)
      modifies this`up, this`inodes, this`links, this`low, this`super, this`lowerLinks, this`grabs, this`chains,
          this`held, nd
      ensures (State(), err) == Namespace.Make(old(State()), kind, d, o)
      ensures held == old(held) && nd.dentry == old(nd.dentry)
      ensures Indexed(chains, inodes, ino)
      ensures forall x | x in old(low).inode && x != old(up).path[d] ::
              x in low.inode && low.inode[x] == old(low).inode[x]
    {
      err := MntWantWrite(o.want);
      if err == 0 {
        err := MakeClaimed(kind, d, nd, o);
        MntDropWrite();
      }
    }

    /** wrapfs_create, wrapfs_symlink, wrapfs_mkdir and wrapfs_mknod. The first
        lends the lower path to `nd` for the lower call. */
    method Make(kind: Kind, d: nat, nd: Nameidata, o: MakeOutcome) returns (err: int)
      requires Ready() && CanMake(State(), kind, d, o)
      modifies this, nd
      ensures (State(), err) == Namespace.Make(old(State()), kind, d, o)
      ensures held == old(held) && nd.dentry == old(nd.dentry)
      ensures Indexed(chains, inodes, ino)
    {
      var l, dir := Enter(d);
      err := MakeWriting(kind, d, nd, o);
      Leave(l, dir, old(held));
    }

    /** vfs_link below, with the interposition and the copied count that follow. */
    method LinkClaimed(src: nat, d: nat, o: LinkOutcome) returns (err: int)
      requires Indexed(chains, inodes, ino) && Injective(inodes) && CanLink(State(), src, d, o) && o.want == 0
      modifies this`up, this`inodes, this`links, this`low, this`lowerLinks, this`grabs, this`chains
      ensures (State(), err) == Namespace.Link(old(State()), src, d, o)
      ensures Indexed(chains, inodes, ino)
      ensures
        var li := old(inodes[up.dentries[src].inode.value]);
        low == if o.link != 0 || !o.instantiated then old(low)
               else old(low).(inode := old(low).inode[old(up).path[d] := li])
    {
      if o.link != 0 {
        return o.link;
      }
      var i := up.dentries[src].inode.value;
      var li := inodes[i];
      lowerLinks := lowerLinks[li := o.links];
      if !o.instantiated {
        return 0;
      }
      low := low.(inode := low.inode[up.path[d] := li]);
      err := Interpose(d, o.supply);
      if err == 0 {
        links := links[i := o.links];
      }
    }

    method LinkWriting(src: nat, d: nat, o: LinkOutcome) returns (err: int)
      requires Indexed(chains, inodes, ino) && Injective(inodes) && CanLink(State(), src, d, o)
      modifies this`up, this`inodes, this`links, this`low, this`lowerLinks, this`grabs, this`chains, this`held
      ensures (State(), err) == Namespace.Link(old(State()), src, d, o)
      ensures held == old(held)
      ensures Indexed(chains, inodes, ino)
      ensures forall x | x in old(low).inode && x != old(up).path[d] ::
              x in low.inode && low.inode[x] == old(low).inode[x]
    {
      err := MntWantWrite(o.want);
      if err == 0 {
        err := LinkClaimed(src, d, o);
        MntDropWrite();
      }
    }

    method LinkInDirectory(src: nat, d: nat, o: LinkOutcome) returns (err: int)
      requires Ready() && CanLink(State(), src, d, o)
      modifies this
      ensures (State(), err) == Namespace.Link(old(State()), src, d, o)
      ensures held == old(held)
      ensures Indexed(chains, inodes, ino)
    {
      var l, dir := Enter(d);
      err := LinkWriting(src, d, o);
      Leave(l, dir, old(held));
    }

    /** wrapfs_link, which holds the path of the linked dentry throughout. */
    method Link(src: nat, d: nat, o: LinkOutcome) returns (err: int)
      requires Ready() && src in up.path && CanLink(State(), src, d, o)
      modifies this
      ensures (State(), err) == Namespace.Link(old(State()), src, d, o)
      ensures held == old(held)
      ensures Indexed(chains, inodes, ino)
    {
      var l := GetLowerPath(src);
      err := LinkInDirectory(src, d, o);
      PutBackPath(old(held), l);
      PutLowerPath(l);
    }

    /** vfs_unlink or vfs_rmdir below, and what wrapfs copies and drops when it
        worked. The lower dentry has other users, and so keeps its inode. */
    method RemoveClaimed(isDir: bool, d: nat, o: RemoveOutcome) returns (err: int)
      requires CanRemove(State(), isDir, d, o) && o.want == 0 && held.dentries[up.path[d]] > 1
      modifies this`up, this`links, this`low, this`lowerLinks
      ensures (State(), err) == Namespace.Remove(old(State()), isDir, d, o)
      ensures low.inode == old(low).inode
    {
      var l, i := up.path[d], up.dentries[d].inode.value;
      var dir, lowerDir := up.dentries[up.dentries[d].parent].inode.value, low.inode[low.parent[l]];
      err := o.remove;
      if err == 0 {
        low := LowerDelete(low, l, held.dentries[l]);
        lowerLinks := lowerLinks[inodes[i] := o.links];
      }
      if !isDir && err == -EBUSY && o.silly {
        err := 0;
      }
      if err != 0 {
        return;
      }
      links := links[i := lowerLinks[inodes[i]]];
      up := Drop(up, d);
      if isDir {
        lowerLinks := lowerLinks[lowerDir := o.dirLinks];
        links := links[dir := o.dirLinks];
      }
    }

    method RemoveWriting(isDir: bool, d: nat, o: RemoveOutcome) returns (err: int)
      requires CanRemove(State(), isDir, d, o) && held.dentries[up.path[d]] > 1
      modifies this`up, this`links, this`low, this`lowerLinks, this`held
      ensures (State(), err) == Namespace.Remove(old(State()), isDir, d, o)
      ensures held == old(held) && low.inode == old(low).inode
    {
      err := MntWantWrite(o.want);
      if err == 0 {
        err := RemoveClaimed(isDir, d, o);
        MntDropWrite();
      }
    }

    /** wrapfs_rmdir; wrapfs_unlink does the same but for one more reference. */
    method RemoveInDirectory(isDir: bool, d: nat, o: RemoveOutcome) returns (err: int)
      requires CanRemove(State(), isDir, d, o) && held.mutexes == multiset{} && up.path[d] in held.dentries
      modifies this`up, this`links, this`low, this`lowerLinks, this`held
      ensures (State(), err) == Namespace.Remove(old(State()), isDir, d, o)
      ensures held == old(held)
    {
      var l, dir := Enter(d);
      err := RemoveWriting(isDir, d, o);
      Leave(l, dir, old(held));
    }

    method Unlink(d: nat, o: RemoveOutcome) returns (err: int)
      requires CanRemove(State(), false, d, o) && held.mutexes == multiset{} && up.path[d] in held.dentries
      modifies this`up, this`links, this`low, this`lowerLinks, this`held
      ensures (State(), err) == Namespace.Remove(old(State()), false, d, o)
      ensures held == old(held)
    {
      var l := up.path[d];
      held := held.Dget(l);
      err := RemoveInDirectory(false, d, o);
      PutBackPath(old(held), l);
      held := held.Dput(l);
    }

    // ---------- rename ----------

    /** The lower rename, the copied directory attributes, and the move above. */
    method RenameClaimed(a: nat, b: nat, o: RenameOutcome) returns (err: int)
      requires CanRename(State(), a, b, o)
      modifies this`up, this`links, this`low, this`lowerLinks, this`held
      ensures (State(), err) ==
        if o.wantOld != 0 then (old(State()), o.wantOld)
        else if o.wantNew != 0 then (old(State()), o.wantNew)
        else if o.rename != 0 then (old(State()), o.rename)
        else (Renamed(old(State()), a, b, o), 0)
      ensures held == old(held) && low.inode == old(low).inode
    {
      err := MntWantWrite(o.wantOld);
      if err != 0 {
        return;
      }
      err := MntWantWrite(o.wantNew);
      if err == 0 {
        err := o.rename;
        if err == 0 {
          MoveBoth(a, b, o);
        }
        MntDropWrite();
      }
      MntDropWrite();
    }

    /** vfs_rename on the lower dentries. */
    method VfsRename(a: nat, b: nat, o: RenameOutcome)
      requires CanRename(State(), a, b, o)
      modifies this`low, this`lowerLinks
      ensures State() == LowerRename(old(State()), a, b, o)
      ensures low.inode == old(low).inode
    {
      var l, m := up.path[a], up.path[b];
      var lowerOld, lowerNew := low.inode[low.parent[l]], low.inode[low.parent[m]];
      if SameInode(low, l, m) {
        return;
      }
      if m in low.inode {
        lowerLinks := lowerLinks[low.inode[m] := o.victimLinks];
      }
      lowerLinks := lowerLinks[lowerNew := o.newLinks][lowerOld := o.oldLinks];
      low := LowerMove(low, l, m);
    }

    method MoveBoth(a: nat, b: nat, o: RenameOutcome)
      requires CanRename(State(), a, b, o)
      modifies this`up, this`links, this`low, this`lowerLinks
      ensures State() == Renamed(old(State()), a, b, o)
      ensures low.inode == old(low).inode
    {
      var oldDir, newDir := DirOf(State(), a), DirOf(State(), b);
      var lowerOld, lowerNew := low.inode[low.parent[up.path[a]]], low.inode[low.parent[up.path[b]]];
      VfsRename(a, b, o);
      links := links[newDir := lowerLinks[lowerNew]];
      if newDir != oldDir {
        links := links[oldDir := lowerLinks[lowerOld]];
      }
      up := UpperMove(up, a, b);
    }

    /** lock_rename: the mutexes of both directories, one if they are the same, and the trap. */
    method LockRename(p: nat, q: nat) returns (trap: Option<nat>)
      requires LowerTree.IsTree(low.parent, top) && p in low.parent && q in low.parent
      requires p in low.inode && q in low.inode && held.mutexes == multiset{}
      requires p != q ==> low.inode[p] != low.inode[q]
      modifies this`held
      ensures LowerTree.IsTrap(low.parent, top, p, q, trap)
      ensures held.mutexes == if p == q then multiset{low.inode[p]} else multiset{low.inode[p], low.inode[q]}
      ensures held == old(held).(mutexes := held.mutexes)
    {
      trap := LowerTree.LockRename(low.parent, top, p, q);
      held := held.Lock(low.inode[p]);
      if p != q {
        held := held.Lock(low.inode[q]);
      }
      assert held.mutexes == if p == q then multiset{low.inode[p]} else multiset{low.inode[p], low.inode[q]};
    }

    method UnlockRename(p: nat, q: nat)
      requires p in low.inode && q in low.inode
      requires held.mutexes == if p == q then multiset{low.inode[p]} else multiset{low.inode[p], low.inode[q]}
      modifies this`held
      ensures held == old(held).(mutexes := multiset{})
    {
      held := held.Unlock(low.inode[p]);
      if p != q {
        held := held.Unlock(low.inode[q]);
      }
      assert held.mutexes == multiset{};
    }

    /** wrapfs_rename, from lock_rename to unlock_rename. */
    method RenameLocked(a: nat, b: nat, o: RenameOutcome) returns (err: int)
      requires CanRename(State(), a, b, o) && held.mutexes == multiset{} && LowerTree.IsTree(low.parent, top)
      modifies this`up, this`links, this`low, this`lowerLinks, this`held
      ensures (State(), err) == Namespace.Rename(old(State()), a, b, o)
      ensures held == old(held)
    {
      var l, m := up.path[a], up.path[b];
      var p, q := low.parent[l], low.parent[m];
      var trap := LockRename(p, q);
      LowerTree.TrapTestsExact(low.parent, top, l, m, trap);
      if trap == Some(l) {
        err := -EINVAL;
      } else if trap == Some(m) {
        err := -ENOTEMPTY;
      } else {
        err := RenameClaimed(a, b, o);
      }
      UnlockRename(p, q);
    }

    /** wrapfs_rename. */
    method Rename(a: nat, b: nat, o: RenameOutcome) returns (err: int)
      requires CanRename(State(), a, b, o) && held.mutexes == multiset{} && LowerTree.IsTree(low.parent, top)
      modifies this`up, this`links, this`low, this`lowerLinks, this`held
      ensures (State(), err) == Namespace.Rename(old(State()), a, b, o)
      ensures held == old(held)
    {
      var l := GetLowerPath(a);
      var m := GetLowerPath(b);
      var p, q := low.parent[l], low.parent[m];
      held := held.Dget(p);
      held := held.Dget(q);
      err := RenameLocked(a, b, o);
      PutBackPath(old(held).GetPath(l).GetPath(m).Dget(p), q);
      held := held.Dput(q);
      PutBackPath(old(held).GetPath(l).GetPath(m), p);
      held := held.Dput(p);
      PutBackPath(old(held).GetPath(l), m);
      PutLowerPath(m);
      PutBackPath(old(held), l);
      PutLowerPath(l);
    }

    // ---------- lookup ----------

    /** The positive half of __wrapfs_lookup. */
    method LookupFound(p: nat, name: string, d: nat, l: nat, supply: Option<nat>) returns (err: int)
      requires Indexed(chains, inodes, ino) && Injective(inodes)
      requires d !in up.dentries && d !in up.path && l in low.inode && low.inode[l] in super
      requires supply.Some? ==> supply.value !in inodes
      modifies this
      ensures (State(), err) == Namespace.LookupFound(old(State()), p, name, d, l, supply)
      ensures held == if err == 0 then old(held).GetPath(l) else old(held)
      ensures err == 0 ==> d in up.path && up.path[d] == l
      ensures Indexed(chains, inodes, ino)
    {
      held := held.GetPath(l);
      var before := up;
      up := up.(dentries := up.dentries[d := Dentry(p, name, New, None)], path := up.path[d := l]);
      assert State() == AddDentry(old(State()), d, Dentry(p, name, New, None), l);
      InterposeFails(State(), d, supply);
      err := Interpose(d, supply);
      if err != 0 {
        PutBackPath(old(held), l);
        held := held.PutPath(l);
        up := before;
      }
    }

    /** The negative half; unless the name is to be created, the dentry is
        released again with its path. */
    method LookupMissing(p: nat, name: string, d: nat, create: bool, l: nat) returns (err: int)
      requires p in up.path
      modifies this`up, this`low, this`held
      ensures low == AddLower(old(low), l, old(up).path[p], name)
      ensures err == if create then 0 else -ENOENT
      ensures held == if create then old(held).GetPath(l) else old(held)
      ensures up == if create
                    then old(up).(dentries := old(up).dentries[d := Dentry(p, name, New, None)],
                                  path := old(up).path[d := l])
                    else old(up)
    {
      low := AddLower(low, l, up.path[p], name);
      held := held.GetPath(l);
      if create {
        up := up.(dentries := up.dentries[d := Dentry(p, name, New, None)], path := up.path[d := l]);
        return 0;
      }
      PutBackPath(old(held), l);
      held := held.PutPath(l);
      return -ENOENT;
    }

    /** __wrapfs_lookup. */
    method LookupBelow(p: nat, name: string, d: nat, create: bool, o: LookupOutcome, supply: Option<nat>)
        returns (err: int)
      requires Indexed(chains, inodes, ino) && Injective(inodes) && CanLookup(State(), p, name, d, o, supply) &&
               !o.NoPrivate?
      modifies this
      ensures (State(), err) == Namespace.Lookup(old(State()), p, name, d, create, o, supply)
      ensures held == if d in up.path then old(held).GetPath(up.path[d]) else old(held)
      ensures Indexed(chains, inodes, ino)
    {
      if o.Fails? {
        err := -o.errno;
      } else if o.Found? {
        err := LookupFound(p, name, d, o.l, supply);
      } else if o.neg.None? {
        err := -ENOMEM;
      } else {
        err := LookupMissing(p, name, d, create, o.neg.value);
      }
    }

    /** wrapfs_lookup, which holds the parent's path throughout. */
    method Lookup(p: nat, name: string, d: nat, create: bool, o: LookupOutcome, supply: Option<nat>) returns (err: int)
      requires Indexed(chains, inodes, ino) && Injective(inodes) && CanLookup(State(), p, name, d, o, supply)
      modifies this
      ensures (State(), err) == Namespace.Lookup(old(State()), p, name, d, create, o, supply)
      ensures held == if d in up.path then old(held).GetPath(up.path[d]) else old(held)
      ensures Indexed(chains, inodes, ino)
    {
      var parent := GetLowerPath(p);
      if o.NoPrivate? {
        err := -ENOMEM;
      } else {
        err := LookupBelow(p, name, d, create, o, supply);
      }
      PutBackPath(old(held), parent);
      if d in up.path {
        PathsCommute(old(held), parent, up.path[d]);
      }
      PutLowerPath(parent);
    }

    // ---------- the ends of lives ----------

    /** wrapfs_d_release. */
    method Release(d: nat)
      requires d in up.path && up.path[d] in held.dentries && held.mounts > 0
      modifies this`up, this`held
      ensures State() == Namespace.Release(old(State()), d)
      ensures held == old(held).PutPath(old(up).path[d])
    {
      var l := up.path[d];
      up := up.(path := up.path - {d});
      held := held.PutPath(l);
      up := up.(dentries := up.dentries - {d});
    }

    /** wrapfs_evict_inode, after which the inode is out of the hash. */
    method Evict(i: nat)
      requires Indexed(chains, inodes, ino) && i in inodes
      modifies this`inodes, this`grabs, this`chains
      ensures State() == Namespace.Evict(old(State()), i)
      ensures Indexed(chains, inodes, ino)
    {
      var li := inodes[i];
      assert InChain(chains, ino(li), i);
      var rest := Unhash(chains[ino(li)], i);
      EvictIndexes(chains, inodes, ino, i, rest);
      chains := chains[ino(li) := rest];
      inodes := inodes - {i};
      grabs := grabs.(inodes := grabs.inodes - multiset{li});
    }

    /** wrapfs_open: dentry_open takes over the path reference, or puts it. */
    method Open(f: nat, d: nat, noMemory: bool, lowerErr: int) returns (err: int)
      requires d in up.dentries && d in up.path
      modifies this`files, this`opens, this`held
      ensures (State(), err) == Namespace.Open(old(State()), f, d, noMemory, lowerErr)
      ensures held == if err == 0 then old(held).GetPath(up.path[d]) else old(held)
    {
      if up.dentries[d].stage != Hashed {
        return -ENOENT;
      }
      if noMemory {
        return -ENOMEM;
      }
      var l := GetLowerPath(d);
      err := lowerErr;
      if err != 0 {
        PutBackPath(old(held), l);
        held := held.PutPath(l);
        return;
      }
      files, opens := files[f := l], opens[f := d];
    }

    /** wrapfs_file_release: fput drops the lower file and the path it took over. */
    method Close(f: nat)
      requires f in files && files[f] in held.dentries && held.mounts > 0
      modifies this`files, this`opens, this`held
      ensures State() == Namespace.Close(old(State()), f)
      ensures held == old(held).PutPath(old(files)[f])
    {
      var l := files[f];
      files, opens := files - {f}, opens - {f};
      held := held.PutPath(l);
    }

    /** wrapfs_put_super. */
    method PutSuper()
      requires held.info ==> held.supers > 0
      modifies this`held
      ensures held == if old(held).info then old(held).(supers := old(held).supers - 1, info := false) else old(held)
    {
      if !held.info {
        return;
      }
      held := held.(supers := held.supers - 1);
      held := held.(info := false);
    }

    // ---------- dentry.c ----------

    /** wrapfs_d_revalidate: `answer` is the lower d_revalidate's, if there is
        one; `nd` is lent for the call and restored. Only the first test allows
        for a null `nd`: with a lower d_revalidate it is then dereferenced (None). */
    method Revalidate(d: nat, nd: Nameidata?, rcu: bool, answer: Option<int>) returns (err: Option<int>)
      requires d in up.path
      modifies this`held, nd
      ensures err.None? <==> nd == null && answer.Some?
      ensures err.Some? ==> err.value == if nd != null && rcu then -ECHILD else if answer.Some? then answer.value else 1
      ensures err.Some? ==> held == old(held) && (nd != null ==> nd.dentry == old(nd.dentry))
    {
      if nd != null && rcu {
        return Some(-ECHILD);
      }
      var l := GetLowerPath(d);
      err := Some(1);
      if answer.Some? {
        if nd == null {
          return None;
        }
        var saved := nd.dentry;
        nd.dentry := l;
        err := answer;
        nd.dentry := saved;
      }
      PutBackPath(old(held), l);
      PutLowerPath(l);
    }

    /** wrapfs_setattr: the permission and size checks, then notify_change under
        the mutex of the lower dentry's inode. */
    method Setattr(d: nat, changeOk: int, sizeOk: int, notify: int) returns (err: int)
      requires CanSetattr(State(), d) && held.mutexes == multiset{}
      modifies this`held, this`links
      ensures (State(), err) == Namespace.Setattr(old(State()), d, changeOk, sizeOk, notify)
      ensures held == old(held)
    {
      err := changeOk;
      if err != 0 {
        return;
      }
      var l := GetLowerPath(d);
      err := sizeOk;
      if err == 0 {
        var i := low.inode[l];
        held := held.Lock(i);
        err := notify;
        AddRemove(old(held).mutexes, i);
        held := held.Unlock(i);
        if err == 0 {
          var u := up.dentries[d].inode.value;
          links := links[u := lowerLinks[inodes[u]]];
        }
      }
      PutBackPath(old(held), l);
      PutLowerPath(l);
    }
  }
}
