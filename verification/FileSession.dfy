/** The code of the page path runs as the state machine does. */
module FileSession {
  import opened Common
  import opened PageCipher
  import opened PageCache
  import opened FileRuns
  import opened Mmap

  method FinishWrite(m: Mapping, bytes: seq<Byte>, w: Option<int>) returns (rc: int)
    requires Inv(m.State()) && Enabled(m.State(), FinishOp(bytes, w))
    modifies m
    ensures m.State() == Apply(m.prim, old(m.State()), FinishOp(bytes, w))
    ensures rc == if w.Some? then |bytes| else 0
  {
    m.CopyIn(bytes);
    rc := m.WriteEnd(|bytes|, w);
  }

  /** Any operation, as the code runs it. In every reachable state the file is
      really open below, so write_end never leaves by its missing-file exit and
      a write that had its scratch page reports all it copied, whatever became
      of it below; and writepage always finds a lower inode, so it never goes on
      to dereference a null one. */
  method Perform(m: Mapping, op: Op)
    requires Inv(m.State()) && Enabled(m.State(), op)
    modifies m
    ensures m.State() == Apply(m.prim, old(m.State()), op)
  {
    match op
    case SetKeyOp(str, len) => m.SetKey(str, len);
    case BeginOp(pos, len, supply) =>
      var rc := m.WriteBegin(pos, len, supply);
    case FinishOp(bytes, w) =>
      var rc := FinishWrite(m, bytes, w);
    case ReadOp(idx, blank, scratch, r) =>
      var err := m.ReadPage(idx, blank, scratch, r);
    case DropOp(idx) => m.DropPage(idx);
    case WritebackOp(idx) =>
      m.LockPage(idx);
      var err := m.WritePage(idx);
      assert err == Some(0);
    case TruncateOp(n, sizeOk, lowerOk) => m.Truncate(n, sizeOk, lowerOk);
    case OpenOp(o) =>
      var err := m.Open(o);
    case ReleaseOp => m.Release();
    case EvictOp => m.Evict();
    case IgetOp => m.Iget();
  }

  /** A whole session ends where the run does. */
  method Session(m: Mapping, ops: seq<Op>)
    requires Inv(m.State())
    modifies m
    ensures m.State() == Run(m.prim, old(m.State()), ops)
    decreases |ops|
  {
    if ops != [] {
      if Enabled(m.State(), ops[0]) {
        Perform(m, ops[0]);
      }
      Session(m, ops[1..]);
    }
  }
}
