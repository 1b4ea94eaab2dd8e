/** What the namespace operations do to names: the bindings of a plain directory
    tree, name by name, and their image below. */
module NamespaceEffects {
  import opened Common
  import opened Namespace
  import opened Stacking
  import LowerTree

  /** In directory `p`, `name` is bound by the dentry `d` to inode `i`. */
  ghost predicate BoundBy(u: Upper, d: nat, p: nat, name: string, i: nat) {
    && Attached(u, d) && d != u.root
    && u.dentries[d] == Dentry(p, name, Hashed, Some(i))
  }

  ghost predicate Bound(u: Upper, p: nat, name: string, i: nat) {
    exists d :: BoundBy(u, d, p, name, i)
  }

  /** A name is bound to at most one inode. */
  lemma BoundOnce(w: World, p: nat, name: string, i: nat, j: nat)
    requires Inv(w) && Bound(w.up, p, name, i) && Bound(w.up, p, name, j)
    ensures i == j
  {
  }

  /** Every name bound above is bound below, in the lower directory, to the
      lower inode that the upper one stands on. */
  lemma BoundBelow(w: World, p: nat, name: string, i: nat) returns (l: nat)
    requires Inv(w) && Bound(w.up, p, name, i)
    ensures ChildBelow(w, p, name, l) && l in w.low.inode && StandsOn(w.inodes, i, w.low.inode[l])
  {
    var d :| BoundBy(w.up, d, p, name, i);
    assert SquareAt(w.up, w.inodes, w.low, d);
    l := w.up.path[d];
  }

  /** Hashing a new dentry binds its name and disturbs no other. */
  lemma HashBinds(u: Upper, d: nat, i: nat, p: nat, name: string, x: nat)
    requires d in u.dentries && d != u.root && u.dentries[d].stage == New
    ensures Bound(Hash(u, d, i), p, name, x) <==>
            Bound(u, p, name, x) || (p == u.dentries[d].parent && name == u.dentries[d].name && x == i)
  {
    var v := Hash(u, d, i);
    if Bound(u, p, name, x) {
      var e :| BoundBy(u, e, p, name, x);
      assert BoundBy(v, e, p, name, x);
    }
    if p == u.dentries[d].parent && name == u.dentries[d].name && x == i {
      assert BoundBy(v, d, p, name, x);
    }
    if Bound(v, p, name, x) {
      var e :| BoundBy(v, e, p, name, x);
      assert e != d ==> BoundBy(u, e, p, name, x);
    }
  }

  /** Interposition, when it succeeds, binds the name to the inode that stands
      on the lower inode: the one there was, or the new one. */
  lemma InterposeBinds(w: World, d: nat, supply: Option<nat>, p: nat, name: string, x: nat)
    requires Interposable(w, d) && d != w.up.root && w.up.dentries[d].stage == New
    requires Injective(w.inodes) && (supply.Some? ==> supply.value !in w.inodes)
    ensures
      var (v, err) := Interpose(w, d, supply);
      Bound(v.up, p, name, x) <==>
      (Bound(w.up, p, name, x) ||
       (err == 0 && p == w.up.dentries[d].parent && name == w.up.dentries[d].name &&
        StandsOn(v.inodes, x, w.low.inode[w.up.path[d]])))
  {
    var li := w.low.inode[w.up.path[d]];
    if w.super[li] == w.sb {
      var (v, i) := IGet(w, li, supply);
      if i.Some? {
        HashBinds(v.up, d, i.value, p, name, x);
        OneStands(w, li, supply, x);
      }
    }
  }

  lemma OneStands(w: World, li: nat, supply: Option<nat>, x: nat)
    requires Injective(w.inodes) && (supply.Some? ==> supply.value !in w.inodes)
    ensures
      var (v, i) := IGet(w, li, supply);
      i.Some? ==> (StandsOn(v.inodes, x, li) <==> x == i.value)
  {
    if !Known(w.inodes, li) && supply.Some? {
      assert x != supply.value && StandsOn(w.inodes[supply.value := li], x, li) ==> StandsOn(w.inodes, x, li);
    }
  }

  // ---------- lookup ----------

  /** What a lookup answers: 0 for a name found on the same file system for which
      an inode can be had, and for a missing one that is to be created. */
  ghost function LookupAnswer(w: World, create: bool, o: LookupOutcome, supply: Option<nat>): int
    requires o.Found? ==> o.l in w.low.inode && w.low.inode[o.l] in w.super
  {
    match o
    case NoPrivate => -ENOMEM
    case Fails(e) => -e
    case Found(l) =>
      if w.super[w.low.inode[l]] != w.sb then -EXDEV
      else if supply.Some? || Known(w.inodes, w.low.inode[l]) then 0 else -EACCES
    case Missing(neg) => if neg.None? then -ENOMEM else if create then 0 else -ENOENT
  }

  /** The dentry is there afterwards iff the name was found and interposed, or is
      to be created; the dentries there were are as they were. */
  lemma LookupExactly(w: World, p: nat, name: string, d: nat, create: bool, o: LookupOutcome, supply: Option<nat>)
    requires LowerClosed(w.low) && CanLookup(w, p, name, d, o, supply)
    ensures
      var (v, err) := Lookup(w, p, name, d, create, o, supply);
      && err == LookupAnswer(w, create, o, supply)
      && (d in v.up.dentries <==> (o.Found? && err == 0) || (o.Missing? && o.neg.Some? && create))
      && (o.Found? && err == 0 ==>
            && d in v.up.path && v.up.path[d] == o.l && v.up.dentries[d].inode.Some?
            && v.up.dentries[d] == Dentry(p, name, Hashed, v.up.dentries[d].inode)
            && StandsOn(v.inodes, v.up.dentries[d].inode.value, w.low.inode[o.l]))
      && (o.Missing? && o.neg.Some? && create ==>
            && v.up.dentries[d] == Dentry(p, name, New, None) && d in v.up.path && v.up.path[d] == o.neg.value)
      && (err != 0 && !o.Missing? && err != -EACCES ==> v == w)
      && (o.Found? && err == -EACCES ==>
            && v == w.(grabs := v.grabs) && v.grabs.inodes == w.grabs.inodes
            && v.grabs.overput == w.grabs.overput + multiset{w.low.inode[o.l]})
      && (o.Missing? && o.neg.Some? ==> ChildBelow(v, p, name, o.neg.value) && o.neg.value !in v.low.inode)
      && forall e | e in w.up.dentries :: e in v.up.dentries && v.up.dentries[e] == w.up.dentries[e]
  {
  }

  /** A lookup binds the name, if it is found and interposed, to the inode over the
      lower one, so names of one lower inode share one upper inode; and no other. */
  lemma LookupBinds(w: World, p: nat, name: string, d: nat, create: bool, o: LookupOutcome, supply: Option<nat>,
                    q: nat, n: string, x: nat)
    requires Injective(w.inodes) && CanLookup(w, p, name, d, o, supply)
    ensures
      var (v, err) := Lookup(w, p, name, d, create, o, supply);
      Bound(v.up, q, n, x) <==>
      (Bound(w.up, q, n, x) ||
       (o.Found? && err == 0 && q == p && n == name && StandsOn(v.inodes, x, w.low.inode[o.l])))
  {
    var l := if o.Found? then o.l else if o.Missing? && o.neg.Some? then o.neg.value else 0;
    var u := AddDentry(w, d, Dentry(p, name, New, None), l);
    AddBindsNothing(w, d, p, name, l, q, n, x);
    if o.Found? {
      InterposeBinds(u, d, supply, q, n, x);
    }
  }

  lemma AddBindsNothing(w: World, d: nat, p: nat, name: string, l: nat, q: nat, n: string, x: nat)
    requires d !in w.up.dentries
    ensures Bound(AddDentry(w, d, Dentry(p, name, New, None), l).up, q, n, x) <==> Bound(w.up, q, n, x)
  {
    var u := AddDentry(w, d, Dentry(p, name, New, None), l);
    if Bound(w.up, q, n, x) {
      var e :| BoundBy(w.up, e, q, n, x);
      assert BoundBy(u.up, e, q, n, x);
    }
    if Bound(u.up, q, n, x) {
      var e :| BoundBy(u.up, e, q, n, x);
      assert BoundBy(w.up, e, q, n, x);
    }
  }

  // ---------- create, symlink, mkdir, mknod, link ----------

  /** Making a name succeeds iff no lower call fails and an inode can be had; a
      lower call that fails changes nothing. */
  lemma MakeExactly(w: World, kind: Kind, d: nat, o: MakeOutcome)
    requires Inv(w) && CanMake(w, kind, d, o)
    ensures
      var (v, err) := Make(w, kind, d, o);
      && err == Or(o.want, Or(o.create, if o.supply.Some? then 0 else -EACCES))
      && (o.want != 0 || o.create != 0 ==> v == w)
  {
    if o.want == 0 && o.create == 0 {
      assert !Known(w.inodes, o.li);
    }
  }

  /** Once the lower file system has made it, its dentry has the new inode and the
      lower counts are as it says; on success the new upper inode stands on it. */
  lemma MakeBelow(w: World, kind: Kind, d: nat, o: MakeOutcome)
    requires Inv(w) && CanMake(w, kind, d, o) && o.want == 0 && o.create == 0
    ensures
      var v, l := Make(w, kind, d, o).0, w.up.path[d];
      && l in v.low.inode && v.low.inode[l] == o.li
      && v.lowerLinks[o.li] == o.links && v.lowerLinks[LowerDirOf(w, d)] == o.dirLinks
      && (o.supply.Some? ==> StandsOn(v.inodes, o.supply.value, o.li))
  {
    assert !Known(w.inodes, o.li);
  }

  /** Linking succeeds iff no lower call fails; the count of the inode is then
      the lower one's, unless the lower link leaves its new dentry negative. */
  lemma LinkExactly(w: World, src: nat, d: nat, o: LinkOutcome)
    requires Inv(w) && CanLink(w, src, d, o)
    ensures
      var (v, err) := Link(w, src, d, o);
      var i := w.up.dentries[src].inode.value;
      && err == Or(o.want, o.link)
      && (err != 0 ==> v == w)
      && (err == 0 ==> v.inodes == w.inodes && v.lowerLinks[w.inodes[i]] == o.links)
      && (err == 0 && o.instantiated ==> v.links[i] == o.links)
      && (err == 0 && !o.instantiated ==> v.up == w.up && v.low == w.low && v.links == w.links)
  {
    LinkKeeps(w, src, d, o);
    assert StandsOn(w.inodes, w.up.dentries[src].inode.value, w.inodes[w.up.dentries[src].inode.value]);
  }

  /** create, symlink, mkdir and mknod bind the name to an inode over the new
      lower one, or bind nothing. */
  lemma MakeBinds(w: World, kind: Kind, d: nat, o: MakeOutcome, p: nat, name: string, x: nat)
    requires Injective(w.inodes) && CanMake(w, kind, d, o)
    ensures
      var (v, err) := Make(w, kind, d, o);
      Bound(v.up, p, name, x) <==>
      (Bound(w.up, p, name, x) ||
       (err == 0 && p == w.up.dentries[d].parent && name == w.up.dentries[d].name && StandsOn(v.inodes, x, o.li)))
  {
    if o.want == 0 && o.create == 0 {
      InterposeBinds(LowerMake(w, d, o.li, o.links, o.dirLinks), d, o.supply, p, name, x);
    }
  }

  /** link binds the new name to the very inode of the old one, unless the lower
      link leaves its new dentry negative: then it succeeds and binds nothing. */
  lemma LinkBinds(w: World, src: nat, d: nat, o: LinkOutcome, p: nat, name: string, x: nat)
    requires Injective(w.inodes) && CanLink(w, src, d, o)
    ensures
      var (v, err) := Link(w, src, d, o);
      Bound(v.up, p, name, x) <==>
      (Bound(w.up, p, name, x) ||
       (err == 0 && o.instantiated && p == w.up.dentries[d].parent && name == w.up.dentries[d].name &&
        x == w.up.dentries[src].inode.value))
  {
    if o.want == 0 && o.link == 0 && o.instantiated {
      var i := w.up.dentries[src].inode.value;
      var li := w.inodes[i];
      var u := w.(lowerLinks := w.lowerLinks[li := o.links], low := w.low.(inode := w.low.inode[w.up.path[d] := li]));
      InterposeBinds(u, d, o.supply, p, name, x);
      assert StandsOn(w.inodes, i, li);
      assert Interpose(u, d, o.supply).0.inodes == w.inodes;
    }
  }

  // ---------- unlink, rmdir, rename, setattr ----------

  /** The lower file system was busy, but had renamed the file out of the way. */
  predicate SillyRenamed(isDir: bool, o: RemoveOutcome) {
    !isDir && o.remove == -EBUSY && o.silly
  }

  /** Removing succeeds iff no lower call fails, a silly rename not counting. The
      dentry is dropped, the counts of the inode are equal, and as the lower
      call left them; for rmdir those of the directory too. */
  lemma RemoveExactly(w: World, isDir: bool, d: nat, o: RemoveOutcome)
    requires Inv(w) && CanRemove(w, isDir, d, o)
    ensures
      var (v, err) := Remove(w, isDir, d, o);
      var i := w.up.dentries[d].inode.value;
      && err == Or(o.want, if SillyRenamed(isDir, o) then 0 else o.remove)
      && (err != 0 ==> v == w)
      && (err == 0 ==> v.up.dentries == w.up.dentries[d := w.up.dentries[d].(stage := Dropped)])
      && (err == 0 ==> v.lowerLinks[w.inodes[i]] == if o.remove == 0 then o.links else w.lowerLinks[w.inodes[i]])
      && (err == 0 && isDir ==> v.lowerLinks[LowerDirOf(w, d)] == o.dirLinks)
      && (err == 0 && o.remove != 0 ==> v.low == w.low)
  {
  }

  /** unlink and rmdir, when they succeed, unbind the name, and only it; but for
      a silly rename the lower name goes too. When they fail nothing changes. */
  lemma RemoveUnbinds(w: World, isDir: bool, d: nat, o: RemoveOutcome, p: nat, name: string, x: nat)
    requires Distinct(w.up) && CanRemove(w, isDir, d, o)
    ensures
      var (v, err) := Remove(w, isDir, d, o);
      && (err != 0 ==> v == w)
      && (err == 0 && o.remove == 0 ==> w.up.path[d] !in v.low.hashed)
      && (err == 0 ==>
            (Bound(v.up, p, name, x) <==>
             Bound(w.up, p, name, x) && !(p == w.up.dentries[d].parent && name == w.up.dentries[d].name)))
  {
    DropUnbinds(w.up, d, p, name, x);
  }

  lemma DropUnbinds(u: Upper, d: nat, p: nat, name: string, x: nat)
    requires Distinct(u) && Attached(u, d) && d != u.root
    ensures Bound(Drop(u, d), p, name, x) <==>
            Bound(u, p, name, x) && !(p == u.dentries[d].parent && name == u.dentries[d].name)
  {
    var v := Drop(u, d);
    if Bound(u, p, name, x) {
      var e :| BoundBy(u, e, p, name, x);
      assert e != d ==> BoundBy(v, e, p, name, x);
    }
    if Bound(v, p, name, x) {
      var e :| BoundBy(v, e, p, name, x);
      assert BoundBy(u, e, p, name, x) && e != d;
    }
  }

  /** A rename succeeds iff neither name lies under the other and no lower call
      fails; else it answers what went wrong first, and changes nothing. */
  lemma RenameExactly(w: World, a: nat, b: nat, o: RenameOutcome)
    requires LowerTree.Closed(w.low.parent) && CanRename(w, a, b, o)
    ensures
      var (v, err) := Rename(w, a, b, o);
      && err == (if UnderItself(w, a, b) then -EINVAL else if UnderItself(w, b, a) then -ENOTEMPTY
                 else Or(o.wantOld, Or(o.wantNew, o.rename)))
      && (err != 0 ==> v == w)
  {
  }

  /** When it succeeds the lower dentry has the other's place, and keeps its inode. */
  lemma RenameBelow(w: World, a: nat, b: nat, o: RenameOutcome)
    requires Inv(w) && CanRename(w, a, b, o) && Rename(w, a, b, o).1 == 0
    ensures
      var low, l, m := Rename(w, a, b, o).0.low, w.up.path[a], w.up.path[b];
      && l in low.parent && low.parent[l] == w.low.parent[m] && l in low.name && low.name[l] == w.low.name[m]
      && low.inode == w.low.inode && m !in low.hashed && (l in w.low.hashed ==> l in low.hashed)
  {
    RenameCases(w, a, b, o);
    RenamedShape(w, a, b, o);
    assert Attached(w.up, a) && Attached(w.up, b);
    LowerMoved(w.low, w.up.path[a], w.up.path[b]);
  }

  lemma LowerMoved(low: Lower, l: nat, m: nat)
    requires l in low.parent && m in low.parent && l in low.name && m in low.name && l != m
    ensures
      var moved := LowerMove(low, l, m);
      && l in moved.parent && moved.parent[l] == low.parent[m] && l in moved.name && moved.name[l] == low.name[m]
      && moved.inode == low.inode && m !in moved.hashed && (l in low.hashed ==> l in moved.hashed)
  {
  }

  /** setattr answers the first error, and copies the link count iff there is none. */
  lemma SetattrExactly(w: World, d: nat, changeOk: int, sizeOk: int, notify: int)
    requires CanSetattr(w, d)
    ensures
      var (v, err) := Setattr(w, d, changeOk, sizeOk, notify);
      var i := w.up.dentries[d].inode.value;
      && err == Or(changeOk, Or(sizeOk, notify))
      && (err != 0 ==> v == w)
      && (err == 0 ==> v.links[i] == w.lowerLinks[w.inodes[i]] && v == w.(links := v.links))
      && forall j: nat | j != i :: v.links[j] == w.links[j]
  {
  }

  /** A file is opened iff its name is hashed, there is memory and the lower file
      opens; it then stands on the lower dentry of its name until it is closed. */
  lemma OpenExactly(w: World, f: nat, d: nat, noMemory: bool, lowerErr: int)
    requires d in w.up.dentries && d in w.up.path && f !in w.files && f !in w.opens
    ensures
      var (v, err) := Open(w, f, d, noMemory, lowerErr);
      && err == (if w.up.dentries[d].stage != Hashed then -ENOENT else if noMemory then -ENOMEM else lowerErr)
      && (err != 0 ==> v == w)
      && (err == 0 ==> f in v.files && f in v.opens && v.files[f] == w.up.path[d] && v.opens[f] == d)
      && Close(v, f) == w
  {
    var v := Open(w, f, d, noMemory, lowerErr).0;
    assert v.files - {f} == w.files && v.opens - {f} == w.opens;
  }

  /** rename, when it succeeds, unbinds the old name, binds the new one to the
      moved inode whatever it was bound to before, and touches no other name. */
  lemma RenameRebinds(w: World, a: nat, b: nat, o: RenameOutcome, p: nat, name: string, x: nat)
    requires Inv(w) && CanRename(w, a, b, o) && w.up.dentries[a].inode.Some?
    ensures
      var (v, err) := Rename(w, a, b, o);
      var x0, y0 := w.up.dentries[a], w.up.dentries[b];
      && (err != 0 ==> v == w)
      && (err == 0 ==>
            (Bound(v.up, p, name, x) <==>
             if p == y0.parent && name == y0.name then x == x0.inode.value
             else !(p == x0.parent && name == x0.name) && Bound(w.up, p, name, x)))
  {
    RenamedShape(w, a, b, o);
    RenameCases(w, a, b, o);
    assert Attached(w.up, a) && Attached(w.up, b);
    MoveRebinds(w.up, a, b, p, name, x);
  }

  lemma MoveRebinds(u: Upper, a: nat, b: nat, p: nat, name: string, x: nat)
    requires Distinct(u) && Attached(u, a) && Attached(u, b) && a != b && a != u.root && b != u.root
    requires u.dentries[a].stage == Hashed && u.dentries[a].inode.Some?
    ensures
      var x0, y0 := u.dentries[a], u.dentries[b];
      Bound(UpperMove(u, a, b), p, name, x) <==>
      if p == y0.parent && name == y0.name then x == x0.inode.value
      else !(p == x0.parent && name == x0.name) && Bound(u, p, name, x)
  {
    var v := UpperMove(u, a, b);
    if Bound(u, p, name, x) {
      var e :| BoundBy(u, e, p, name, x);
      assert e != a && e != b ==> BoundBy(v, e, p, name, x);
    }
    if p == u.dentries[b].parent && name == u.dentries[b].name && x == u.dentries[a].inode.value {
      assert BoundBy(v, a, p, name, x);
    }
    if Bound(v, p, name, x) {
      var e :| BoundBy(v, e, p, name, x);
      assert e != a ==> BoundBy(u, e, p, name, x);
      assert Attached(u, e);
    }
  }
}
