/** Runs of the page path: every interleaving of key changes, writes (whose two
    halves may be separated by other steps), page reads, reclaim, writeback,
    truncation, open and release. */
module FileRuns {
  import opened Common
  import opened PageCipher
  import opened PageCache

  datatype Op =
    | SetKeyOp(str: string, len: nat)
    | BeginOp(pos: nat, len: nat, supply: Option<PageData>)
    | FinishOp(bytes: seq<Byte>, w: Option<int>)
    | ReadOp(idx: nat, blank: PageData, scratch: Option<PageData>, r: int)
    | DropOp(idx: nat)
    | WritebackOp(idx: nat)
    | TruncateOp(n: nat, sizeOk: bool, lowerOk: bool)
    | OpenOp(o: OpenOutcome)
    | ReleaseOp
    | EvictOp
    | IgetOp

  /** Page `idx` is between write_begin and write_end. */
  predicate Writing(s: File, idx: nat) {
    s.pending.Some? && s.pending.value.pos / PAGE_SIZE == idx
  }

  /** What the VFS guarantees when it calls an operation: the file is open, the
      inode's mutex admits one write or truncation at a time, a chunk stays in
      its page, and a page is locked by its caller, who waits for others. */
  predicate Enabled(s: File, op: Op) {
    match op
    case SetKeyOp(_, _) => true
    case BeginOp(pos, len, _) =>
      s.isOpen && s.pending.None? && 0 < len && pos % PAGE_SIZE + len <= PAGE_SIZE && Unlocked(s, pos / PAGE_SIZE)
    case FinishOp(bytes, w) =>
      && s.isOpen && s.pending.Some? && |bytes| <= s.pending.value.len
      && (if w.Some? then w.value <= |bytes| else s.key.Some?)
    case ReadOp(idx, _, _, r) =>
      s.isOpen && Unlocked(s, idx) && (idx in s.cache ==> !s.cache[idx].uptodate) && r <= Available(s.lower, idx)
    case DropOp(idx) => idx in s.cache && Unlocked(s, idx) && s.cache[idx].refs == 0
    case WritebackOp(idx) => idx in s.cache && Unlocked(s, idx) && s.cache[idx].uptodate
    case TruncateOp(n, _, _) =>
      s.live && s.pending.None? && forall idx | idx in s.cache && n < Start(idx + 1) :: Unlocked(s, idx)
    case OpenOp(_) => s.live && !s.isOpen
    case ReleaseOp => s.isOpen && s.pending.None?
    case EvictOp => !s.isOpen && s.live && forall idx | idx in s.cache :: Unlocked(s, idx)
    case IgetOp => !s.live
  }

  /** What holds of the handle, the locks and the pending write in every
      reachable state, whatever the outcomes of the lower calls. */
  ghost predicate Inv(s: File) {
    && (s.isOpen ==> s.priv == Live && s.lowerFile && s.live)
    && (s.lowerFile ==> s.isOpen) && (s.live ==> s.lowerInode)
    && (s.pending.Some? ==>
          && s.isOpen && InFlight(s)
          && s.pending.value.pos % PAGE_SIZE + s.pending.value.len <= PAGE_SIZE)
    && forall idx | idx in s.cache ::
         && s.live
         && s.cache[idx].refs == (if Writing(s, idx) then 1 else 0)
         && (Writing(s, idx) ==> s.cache[idx].uptodate)
         && (s.cache[idx].locked && !Writing(s, idx) ==> !s.cache[idx].uptodate)
  }

  /** The VFS copy followed by write_end. */
  function Finish(p: Primitives, s: File, bytes: seq<Byte>, w: int): (t: File)
    requires Inv(s) && Enabled(s, FinishOp(bytes, Some(w)))
    ensures Inv(t)
  {
    WriteEnd(p, CopyIn(s, bytes), |bytes|, Some(w)).0
  }

  /** The same without a scratch page: the bytes stay in the page, and no further. */
  function Abandon(p: Primitives, s: File, bytes: seq<Byte>): (t: File)
    requires Inv(s) && Enabled(s, FinishOp(bytes, None))
    ensures Inv(t)
  {
    WriteEnd(p, CopyIn(s, bytes), |bytes|, None).0
  }

  lemma BeginKeeps(s: File, pos: nat, len: nat, supply: Option<PageData>)
    requires Inv(s) && Enabled(s, BeginOp(pos, len, supply))
    ensures Inv(WriteBegin(s, pos, len, supply).0)
  {
  }

  lemma ReadKeeps(p: Primitives, s: File, idx: nat, blank: PageData, scratch: Option<PageData>, r: int)
    requires Inv(s) && Enabled(s, ReadOp(idx, blank, scratch, r))
    ensures Inv(ReadPage(p, s, idx, blank, scratch, r).0)
  {
  }

  lemma TruncateKeeps(s: File, n: nat, sizeOk: bool, lowerOk: bool)
    requires Inv(s) && Enabled(s, TruncateOp(n, sizeOk, lowerOk))
    ensures Inv(Truncate(s, n, sizeOk, lowerOk))
  {
  }

  function Apply(p: Primitives, s: File, op: Op): (t: File)
    requires Inv(s) && Enabled(s, op)
    ensures Inv(t)
  {
    match op
    case SetKeyOp(str, len) => SetKey(p, s, str, len)
    case BeginOp(pos, len, supply) =>
      BeginKeeps(s, pos, len, supply);
      WriteBegin(s, pos, len, supply).0
    case FinishOp(bytes, Some(w)) => Finish(p, s, bytes, w)
    case FinishOp(bytes, None) => Abandon(p, s, bytes)
    case ReadOp(idx, blank, scratch, r) =>
      ReadKeeps(p, s, idx, blank, scratch, r);
      ReadPage(p, s, idx, blank, scratch, r).0
    case DropOp(idx) => DropPage(s, idx)
    case WritebackOp(idx) => WritePage(LockPage(s, idx), idx).0
    case TruncateOp(n, sizeOk, lowerOk) =>
      TruncateKeeps(s, n, sizeOk, lowerOk);
      Truncate(s, n, sizeOk, lowerOk)
    case OpenOp(o) => Open(s, o).0
    case ReleaseOp => Release(s)
    case EvictOp => Evict(s)
    case IgetOp => Iget(s)
  }

  /** One step of a run; an operation the VFS would not issue is skipped. */
  function Next(p: Primitives, s: File, op: Op): (t: File)
    requires Inv(s)
    ensures Inv(t)
  {
    if Enabled(s, op) then Apply(p, s, op) else s
  }

  function Run(p: Primitives, s: File, ops: seq<Op>): (t: File)
    requires Inv(s)
    ensures Inv(t)
    decreases |ops|
  {
    if ops == [] then s else Run(p, Next(p, s, ops[0]), ops[1..])
  }

  /** Conditions under which particular theorems speak of a run. */
  datatype Policy =
    | Plain          // writes are page aligned and leave no hole; lower writes and truncations succeed
    | Kept           // at any offset, each write leaves its page agreeing with the lower file; lower
                     // reads are complete and truncations do not grow the lower file
    | OneKey(k: Key) // no other key is set, and it is not cleared inside a write
    | Sizes          // every lower write is complete and stores something; lower truncations succeed
    | AlignedSizes   // as Sizes, and writes start at a page's start, with holes or without
    | Steady         // the key does not change inside a write
    | Keyless        // no key is set, no truncation

  predicate Allows(p: Primitives, pol: Policy, s: File, op: Op)
    requires Inv(s) && Enabled(s, op)
  {
    match pol
    case Plain => PlainStep(s, op)
    case Kept => KeptStep(s, op)
    case OneKey(k) => op.SetKeyOp? ==> if op.str == "0" then s.pending.None? else p.md5(op.str, op.len) == k
    case Sizes => SizedStep(op)
    case AlignedSizes => SizedStep(op) && (op.BeginOp? ==> op.pos % PAGE_SIZE == 0)
    case Steady => op.SetKeyOp? ==> s.pending.None?
    case Keyless => !op.SetKeyOp? && !op.TruncateOp?
  }

  predicate SizedStep(op: Op) {
    match op
    case FinishOp(bytes, w) => 0 < |bytes| && w == Some(|bytes|)
    case TruncateOp(_, sizeOk, lowerOk) => sizeOk ==> lowerOk
    case _ => true
  }

  predicate PlainStep(s: File, op: Op) {
    match op
    case BeginOp(pos, _, _) => pos % PAGE_SIZE == 0 && pos <= |s.lower|
    case FinishOp(bytes, w) => w == Some(|bytes|)
    case TruncateOp(n, sizeOk, lowerOk) => sizeOk ==> lowerOk && n <= s.size
    case _ => true
  }

  /** Position `j` gets a new byte in the page that is not stored below: it is
      written by the chunk, but lies at or past `copied`. */
  predicate Misplaced(s: File, bytes: seq<Byte>, j: nat)
    requires Inv(s) && s.pending.Some? && j < PAGE_SIZE
  {
    var idx, from := s.pending.value.pos / PAGE_SIZE, s.pending.value.pos % PAGE_SIZE;
    Max(from, |bytes|) <= j < from + |bytes| && Start(idx) + j < |s.lower| && bytes[j - from] != s.cache[idx].data[j]
  }

  /** A chunk keeps its page in step with the lower file if it misplaces nothing,
      does not start past the end, and, in a page that was not up to date, covers
      all the lower file has of it. Without a key it must start at a page's start. */
  predicate KeptStep(s: File, op: Op)
    requires Inv(s) && Enabled(s, op)
  {
    match op
    case FinishOp(bytes, w) =>
      var pos := s.pending.value.pos;
      && w == Some(|bytes|) && Start(pos / PAGE_SIZE) <= |s.lower|
      && (s.key.Some? || pos % PAGE_SIZE == 0)
      && (s.pending.value.filled || |s.lower| <= Start(pos / PAGE_SIZE) + |bytes|)
      && forall j | 0 <= j < PAGE_SIZE :: !Misplaced(s, bytes, j)
    case ReadOp(idx, _, _, r) => r == Available(s.lower, idx)
    case TruncateOp(n, sizeOk, lowerOk) => sizeOk ==> lowerOk && n <= |s.lower|
    case _ => true
  }

  predicate Follows(p: Primitives, pol: Policy, s: File, ops: seq<Op>)
    requires Inv(s)
    decreases |ops|
  {
    ops == [] ||
    ((Enabled(s, ops[0]) ==> Allows(p, pol, s, ops[0])) && Follows(p, pol, Next(p, s, ops[0]), ops[1..]))
  }

  // ---------- the reference: a plain file, with a tag on every byte ----------

  /** A plain file; `tags` records the key each byte was last written under,
      None for a byte written in the clear. */
  datatype Reference = Reference(bytes: seq<Byte>, tags: seq<Option<Key>>)

  function RefNext(s: File, ref: Reference, op: Op): Reference
    requires Inv(s)
  {
    if !Enabled(s, op) then ref else
    match op
    case FinishOp(bytes, Some(_)) =>
      Reference(WriteAt(ref.bytes, s.pending.value.pos, bytes, ZERO),
                WriteAt(ref.tags, s.pending.value.pos, seq(|bytes|, _ => s.key), None))
    case TruncateOp(n, true, _) =>
      if n <= |ref.bytes| && n <= |ref.tags| then Reference(ref.bytes[..n], ref.tags[..n]) else ref
    case _ => ref
  }

  function RefRun(p: Primitives, s: File, ref: Reference, ops: seq<Op>): Reference
    requires Inv(s)
    decreases |ops|
  {
    if ops == [] then ref else RefRun(p, Next(p, s, ops[0]), RefNext(s, ref, ops[0]), ops[1..])
  }

  /** The byte that masks position `j` of a page under a key, if there is one. */
  function PageMask(p: Primitives, key: Option<Key>, j: nat): Byte {
    match key
    case Some(k) => p.Keystream(k, j)
    case None => ZERO
  }

  /** The byte that masks position `i` of the file. */
  function Mask(p: Primitives, key: Option<Key>, i: nat): Byte {
    PageMask(p, key, i % PAGE_SIZE)
  }

  /** Every lower byte, unmasked with the key it was written under, is the plain file's byte. */
  ghost predicate Masked(p: Primitives, lower: seq<Byte>, ref: Reference) {
    && |ref.bytes| == |ref.tags| == |lower|
    && forall i :: 0 <= i < |lower| ==> lower[i] == ref.bytes[i].Xor(Mask(p, ref.tags[i], i))
  }

  ghost predicate Refines(p: Primitives, s: File, ref: Reference) {
    && Masked(p, s.lower, ref)
    && s.size == |s.lower|
    && (s.pending.Some? ==> s.pending.value.pos % PAGE_SIZE == 0 && s.pending.value.pos <= |s.lower|)
  }

  lemma InPage(idx: nat, j: nat)
    requires j < PAGE_SIZE
    ensures (Start(idx) + j) / PAGE_SIZE == idx && (Start(idx) + j) % PAGE_SIZE == j
  {
  }

  /** The outgoing bytes are those at the start of the page under the current
      mask; without a key, only for a chunk that starts there. */
  lemma OutgoingMasked(p: Primitives, s: File, bytes: seq<Byte>, j: nat)
    requires InFlight(s) && s.pending.value.pos % PAGE_SIZE + |bytes| <= PAGE_SIZE && j < |bytes|
    requires s.key.Some? || s.pending.value.pos % PAGE_SIZE == 0
    ensures
      var idx, from := s.pending.value.pos / PAGE_SIZE, s.pending.value.pos % PAGE_SIZE;
      Outgoing(p, CopyIn(s, bytes), |bytes|)[j] == Spliced(s.cache[idx].data, from, bytes)[j].Xor(PageMask(p, s.key, j))
  {
  }

  /** A completed chunk, at any offset, seen from the lower file and the sizes. */
  lemma FinishEffect(p: Primitives, s: File, bytes: seq<Byte>)
    requires Inv(s) && Enabled(s, FinishOp(bytes, Some(|bytes|)))
    ensures
      var pos, t := s.pending.value.pos, Finish(p, s, bytes, |bytes|);
      && t.lower == WriteAt(s.lower, Start(pos / PAGE_SIZE), Outgoing(p, CopyIn(s, bytes), |bytes|), ZERO)
      && t.size == Max(|t.lower|, pos + |bytes|)
      && t.key == s.key && t.pending == None
  {
  }

  /** Writing masked bytes below and clear bytes, tagged, above keeps the two files matched. */
  lemma MaskedWrite(p: Primitives, lower: seq<Byte>, ref: Reference, pos: nat, out: seq<Byte>, bytes: seq<Byte>,
                    key: Option<Key>)
    requires Masked(p, lower, ref) && pos <= |lower| && |out| == |bytes|
    requires forall j :: 0 <= j < |out| ==> out[j] == bytes[j].Xor(Mask(p, key, pos + j))
    ensures Masked(p, WriteAt(lower, pos, out, ZERO),
                   Reference(WriteAt(ref.bytes, pos, bytes, ZERO),
                             WriteAt(ref.tags, pos, seq(|bytes|, _ => key), None)))
  {
  }

  lemma FinishRefines(p: Primitives, s: File, ref: Reference, bytes: seq<Byte>)
    requires Inv(s) && Enabled(s, FinishOp(bytes, Some(|bytes|))) && Refines(p, s, ref)
    ensures Refines(p, Finish(p, s, bytes, |bytes|), RefNext(s, ref, FinishOp(bytes, Some(|bytes|))))
  {
    var pos := s.pending.value.pos;
    var out := Outgoing(p, CopyIn(s, bytes), |bytes|);
    assert Start(pos / PAGE_SIZE) == pos;
    forall j | 0 <= j < |out|
      ensures out[j] == bytes[j].Xor(Mask(p, s.key, pos + j))
    {
      OutgoingMasked(p, s, bytes, j);
      InPage(pos / PAGE_SIZE, j);
    }
    MaskedWrite(p, s.lower, ref, pos, out, bytes, s.key);
    FinishEffect(p, s, bytes);
  }

  lemma StepRefines(p: Primitives, s: File, ref: Reference, op: Op)
    requires Inv(s) && Enabled(s, op) && PlainStep(s, op) && Refines(p, s, ref)
    ensures Refines(p, Apply(p, s, op), RefNext(s, ref, op))
  {
    if op.FinishOp? {
      FinishRefines(p, s, ref, op.bytes);
    }
  }

  /** Over every run of aligned, hole-free writes, with keys changed anywhere,
      even inside a write, the lower file stays the plain file under its tags. */
  lemma {:induction false} RunRefines(p: Primitives, s: File, ref: Reference, ops: seq<Op>)
    requires Inv(s) && Refines(p, s, ref) && Follows(p, Plain, s, ops)
    ensures Refines(p, Run(p, s, ops), RefRun(p, s, ref, ops))
    decreases |ops|
  {
    if ops != [] {
      if Enabled(s, ops[0]) {
        StepRefines(p, s, ref, ops[0]);
      }
      RunRefines(p, Next(p, s, ops[0]), RefNext(s, ref, ops[0]), ops[1..]);
    }
  }

  // ---------- page locks ----------

  /** Pages locked by nobody's pending write: no later step can free them. */
  function Stuck(s: File): set<nat> {
    set idx | idx in s.cache && s.cache[idx].locked && !Writing(s, idx)
  }

  /** The pages a run asks readpage for while no key is set. */
  function KeylessReads(p: Primitives, s: File, ops: seq<Op>): set<nat>
    requires Inv(s)
    decreases |ops|
  {
    if ops == [] then {}
    else KeylessRead(s, ops[0]) + KeylessReads(p, Next(p, s, ops[0]), ops[1..])
  }

  function KeylessRead(s: File, op: Op): set<nat> {
    if op.ReadOp? && Enabled(s, op) && s.key.None? then {op.idx} else {}
  }

  /** A run taken apart at its first step. */
  lemma RunCons(p: Primitives, s: File, pol: Policy, op: Op, rest: seq<Op>)
    requires Inv(s)
    ensures Run(p, s, [op] + rest) == Run(p, Next(p, s, op), rest)
    ensures KeylessReads(p, s, [op] + rest) == KeylessRead(s, op) + KeylessReads(p, Next(p, s, op), rest)
    ensures Follows(p, pol, s, [op] + rest) <==>
            (Enabled(s, op) ==> Allows(p, pol, s, op)) && Follows(p, pol, Next(p, s, op), rest)
  {
    assert ([op] + rest)[1..] == rest;
  }

  /** Every operation unlocks what it locked on every exit but one: after any
      run the pages left locked, beyond the one being written, are exactly those
      that readpage was asked for without a key. */
  lemma {:induction false} StuckExactly(p: Primitives, s: File, ops: seq<Op>)
    requires Inv(s)
    ensures Stuck(Run(p, s, ops)) == Stuck(s) + KeylessReads(p, s, ops)
    decreases |ops|
  {
    if ops != [] {
      StuckStep(p, s, ops[0]);
      StuckExactly(p, Next(p, s, ops[0]), ops[1..]);
    }
  }

  lemma StuckStep(p: Primitives, s: File, op: Op)
    requires Inv(s)
    ensures Stuck(Next(p, s, op)) == Stuck(s) + KeylessRead(s, op)
  {
    if op.TruncateOp? && Enabled(s, op) {
      TruncateKeepsStuck(s, op.n);
    }
  }

  lemma TruncateKeepsStuck(s: File, n: nat)
    requires s.pending.None? && forall idx | idx in s.cache && n < Start(idx + 1) :: Unlocked(s, idx)
    ensures Stuck(s.(size := n, cache := TruncatedCache(s.cache, n))) == Stuck(s)
  {
  }
}
