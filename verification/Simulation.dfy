/** The code runs as the state machine does: each operation of a mount is the
    step that NamespaceRuns speaks of, and leaves the mount valid. */
module Simulation {
  import opened Common
  import opened Namespace
  import opened Stacking
  import opened NamespaceRuns
  import opened Wrapfs
  import InodeIndex
  import LowerTree

  /** After a step the mount is valid again. */
  lemma StepValid(w: World, h: Held, op: Op)
    requires Inv(w) && PathsOwned(h, w.up.path, w.files) && Can(w, op) && Supplied(w, op)
    ensures
      var v := Effect(w, op);
      Inv(v) && PathsOwned(HeldAfter(h, w, v, op), v.up.path, v.files)
  {
    StepKeeps(w, op);
    StepPaths(w, op);
    PathStepOwned(h, w, Effect(w, op), op);
  }

  /** The names operations of a directory, none of which keeps a path. */
  method PerformInDirectory(m: Mount, op: Op, nd: Nameidata)
    requires m.Ready() && LowerTree.IsTree(m.low.parent, m.top) && Can(m.State(), op)
    requires op.MakeOp? || op.LinkOp? || op.RemoveOp? || op.RenameOp?
    requires op.RemoveOp? ==> m.up.path[op.d] in m.held.dentries
    requires op.LinkOp? ==> op.src in m.up.path
    modifies m, nd
    ensures m.State() == Effect(old(m.State()), op)
    ensures m.held == old(m.held)
    ensures InodeIndex.Indexed(m.chains, m.inodes, m.ino)
  {
    if op.MakeOp? {
      var err := m.Make(op.kind, op.d, nd, op.made);
    } else if op.LinkOp? {
      var err := m.Link(op.src, op.d, op.linked);
    } else if op.RenameOp? {
      var err := m.Rename(op.a, op.b, op.renamed);
    } else if op.isDir {
      var err := m.RemoveInDirectory(true, op.d, op.removed);
    } else {
      var err := m.Unlink(op.d, op.removed);
    }
  }

  method PerformLookup(m: Mount, op: Op)
    requires m.Ready() && op.LookupOp? && Can(m.State(), op)
    modifies m
    ensures m.State() == Effect(old(m.State()), op)
    ensures m.held == HeldAfter(old(m.held), old(m.State()), m.State(), op)
    ensures InodeIndex.Indexed(m.chains, m.inodes, m.ino)
  {
    var err := m.Lookup(op.p, op.name, op.d, op.create, op.found, op.supply);
  }

  method PerformOnFile(m: Mount, op: Op)
    requires m.Ready() && Can(m.State(), op) && (op.OpenOp? || op.CloseOp?)
    requires op.CloseOp? ==> m.files[op.f] in m.held.dentries && m.held.mounts > 0
    modifies m
    ensures m.State() == Effect(old(m.State()), op)
    ensures m.held == HeldAfter(old(m.held), old(m.State()), m.State(), op)
    ensures InodeIndex.Indexed(m.chains, m.inodes, m.ino)
  {
    if op.OpenOp? {
      var err := m.Open(op.f, op.d, op.noMemory, op.lowerErr);
    } else {
      m.Close(op.f);
    }
  }

  method PerformEnd(m: Mount, op: Op)
    requires m.Ready() && Can(m.State(), op) && (op.ReleaseOp? || op.EvictOp?)
    requires op.ReleaseOp? ==> m.up.path[op.d] in m.held.dentries && m.held.mounts > 0
    modifies m
    ensures m.State() == Effect(old(m.State()), op)
    ensures m.held == HeldAfter(old(m.held), old(m.State()), m.State(), op)
    ensures InodeIndex.Indexed(m.chains, m.inodes, m.ino)
  {
    if op.ReleaseOp? {
      m.Release(op.d);
    } else {
      m.Evict(op.i);
    }
  }

  method PerformOnAttributes(m: Mount, op: Op, nd: Nameidata)
    requires m.Ready() && Can(m.State(), op) && (op.SetattrOp? || op.RevalidateOp?)
    modifies m, nd
    ensures m.State() == Effect(old(m.State()), op)
    ensures m.held == old(m.held)
    ensures InodeIndex.Indexed(m.chains, m.inodes, m.ino)
  {
    if op.SetattrOp? {
      var err := m.Setattr(op.d, op.changeOk, op.sizeOk, op.notify);
    } else {
      var err := m.Revalidate(op.d, nd, op.rcu, op.answer);
    }
  }

  /** A valid mount meets what the code relies on. */
  lemma ValidIsReady(m: Mount, op: Op)
    requires m.Valid() && Can(m.State(), op)
    ensures m.Ready() && LowerTree.IsTree(m.low.parent, m.top)
    ensures op.ReleaseOp? || op.RemoveOp? ==> m.up.path[op.d] in m.held.dentries && m.held.mounts > 0
    ensures op.CloseOp? ==> m.files[op.f] in m.held.dentries && m.held.mounts > 0
    ensures op.LinkOp? ==> op.src in m.up.path
  {
    if op.ReleaseOp? || op.RemoveOp? {
      GivePath(m.held, m.up.path, m.files, op.d);
    } else if op.CloseOp? {
      GiveFile(m.held, m.up.path, m.files, op.f);
    }
  }

  /** Any operation, as the code runs it on a valid mount. */
  method Perform(m: Mount, op: Op, nd: Nameidata)
    requires m.Valid() && Can(m.State(), op) && Supplied(m.State(), op)
    modifies m, nd
    ensures m.State() == Effect(old(m.State()), op)
    ensures m.held == HeldAfter(old(m.held), old(m.State()), m.State(), op)
    ensures m.Valid()
  {
    StepValid(m.State(), m.held, op);
    ValidIsReady(m, op);
    if op.MakeOp? || op.LinkOp? || op.RemoveOp? || op.RenameOp? {
      PerformInDirectory(m, op, nd);
    } else if op.LookupOp? {
      PerformLookup(m, op);
    } else if op.OpenOp? || op.CloseOp? {
      PerformOnFile(m, op);
    } else if op.SetattrOp? || op.RevalidateOp? {
      PerformOnAttributes(m, op, nd);
    } else {
      PerformEnd(m, op);
    }
  }

  /** A whole session: from any valid mount the code ends where the run does,
      holding what the run says, and valid. */
  method Session(m: Mount, ops: seq<Op>, nd: Nameidata)
    requires m.Valid() && Issuable(m.State(), ops)
    modifies m, nd
    ensures m.State() == Run(old(m.State()), ops)
    ensures m.held == HeldRun(old(m.State()), old(m.held), ops)
    ensures m.Valid()
    decreases |ops|
  {
    if ops != [] {
      Perform(m, ops[0], nd);
      Session(m, ops[1..], nd);
    }
  }
}
