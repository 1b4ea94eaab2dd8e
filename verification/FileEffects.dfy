/** What each operation of the page path does, byte by byte and answer by answer,
    for every outcome of the lower calls. */
module FileEffects {
  import opened Common
  import opened PageCipher
  import opened PageCache
  import opened FileRuns
  import opened FileTheorems
  import opened FileLimits

  predicate SameHandle(s: File, t: File) {
    && t.live == s.live && t.isOpen == s.isOpen && t.priv == s.priv
    && t.lowerFile == s.lowerFile && t.lowerInode == s.lowerInode
  }

  /** The pages other than `idx` are as they were. */
  predicate OtherPages(s: File, t: File, idx: nat) {
    && (forall i | i in t.cache && i != idx :: i in s.cache && t.cache[i] == s.cache[i])
    && (forall i | i in s.cache && i != idx :: i in t.cache)
  }

  // ---------- write_begin ----------

  /** A byte of the page that write_begin finds or allocates. */
  function GrabbedByte(s: File, idx: nat, blank: PageData, j: nat): Byte
    requires j < PAGE_SIZE
  {
    if idx in s.cache then s.cache[idx].data[j] else blank[j]
  }

  /** write_begin is refused for want of a key or of memory, and then does nothing.
      Else it locks and references the page and nothing else changes; a page that
      was not up to date is zero outside the chunk. */
  lemma BeginExactly(s: File, pos: nat, len: nat, blank: Option<PageData>)
    requires Inv(s) && Enabled(s, BeginOp(pos, len, blank))
    ensures
      var idx, from := pos / PAGE_SIZE, pos % PAGE_SIZE;
      var (t, rc) := WriteBegin(s, pos, len, blank);
      && rc == (if s.key.None? then -EPERM else if idx !in s.cache && blank.None? then -ENOMEM else 0)
      && (rc != 0 ==> t == s)
      && (rc == 0 ==>
            && t.lower == s.lower && t.size == s.size && t.key == s.key && SameHandle(s, t) && OtherPages(s, t, idx)
            && t.pending == Some(Pending(pos, len, Cached(s, idx)))
            && Cached(t, idx) && t.cache[idx].locked && t.cache[idx].refs == 1)
  {
  }

  lemma BegunBytes(s: File, pos: nat, len: nat, blank: PageData, j: nat)
    requires Inv(s) && Enabled(s, BeginOp(pos, len, Some(blank))) && s.key.Some? && j < PAGE_SIZE
    ensures
      var idx, from := pos / PAGE_SIZE, pos % PAGE_SIZE;
      WriteBegin(s, pos, len, Some(blank)).0.cache[idx].data[j] ==
      if Cached(s, idx) || from <= j < from + len then GrabbedByte(s, idx, blank, j) else ZERO
  {
  }

  // ---------- write_end ----------

  /** The byte that page `idx` shows at `j` once the chunk is copied in. */
  function CopiedByte(s: File, bytes: seq<Byte>, j: nat): Byte
    requires Inv(s) && s.pending.Some? && j < PAGE_SIZE
  {
    var idx, from := s.pending.value.pos / PAGE_SIZE, s.pending.value.pos % PAGE_SIZE;
    if from <= j < from + |bytes| then bytes[j - from] else s.cache[idx].data[j]
  }

  /** Whatever the lower write returns, write_end reports all it was given, ends
      the write and lets the page go. A failed write leaves the lower file, and
      the size but for the end of the chunk; any other takes the size from below
      first. */
  lemma FinishExactly(p: Primitives, s: File, bytes: seq<Byte>, w: int)
    requires Inv(s) && Enabled(s, FinishOp(bytes, Some(w)))
    ensures
      var pos, t := s.pending.value.pos, Finish(p, s, bytes, w);
      && WriteEnd(p, CopyIn(s, bytes), |bytes|, Some(w)).1 == |bytes|
      && (w < 0 ==> t.lower == s.lower && t.size == Max(s.size, pos + |bytes|))
      && (w >= 0 ==> t.size == Max(|t.lower|, pos + |bytes|))
      && t.key == s.key && t.pending == None && SameHandle(s, t) && OtherPages(s, t, pos / PAGE_SIZE)
      && Cached(t, pos / PAGE_SIZE) && Unlocked(t, pos / PAGE_SIZE) && t.cache[pos / PAGE_SIZE].refs == 0
  {
  }

  /** What the size was taken to be when the tail of the page was zeroed. */
  function SizeThen(p: Primitives, s: File, bytes: seq<Byte>, w: int): nat
    requires Inv(s) && Enabled(s, FinishOp(bytes, Some(w)))
  {
    if w < 0 then s.size else |Finish(p, s, bytes, w).lower|
  }

  lemma FinishedData(p: Primitives, s: File, bytes: seq<Byte>, w: int)
    requires Inv(s) && Enabled(s, FinishOp(bytes, Some(w)))
    ensures
      var idx, from := s.pending.value.pos / PAGE_SIZE, s.pending.value.pos % PAGE_SIZE;
      Finish(p, s, bytes, w).cache[idx].data ==
      FillZeros(Spliced(s.cache[idx].data, from, bytes), SizeThen(p, s, bytes, w), idx, from + |bytes|)
  {
  }

  /** Every byte of the page after a write, however much of it reached the lower
      file: the copied byte or the old one below the final size, zero from there
      on, unless the size did not reach the page. */
  lemma FinishedBytes(p: Primitives, s: File, bytes: seq<Byte>, w: int, j: nat)
    requires Inv(s) && Enabled(s, FinishOp(bytes, Some(w))) && j < PAGE_SIZE
    ensures
      var idx, t := s.pending.value.pos / PAGE_SIZE, Finish(p, s, bytes, w);
      t.cache[idx].data[j] ==
      if Start(idx) + j < t.size || SizeThen(p, s, bytes, w) < Start(idx) then CopiedByte(s, bytes, j) else ZERO
  {
    var idx, from := s.pending.value.pos / PAGE_SIZE, s.pending.value.pos % PAGE_SIZE;
    FinishExactly(p, s, bytes, w);
    FinishedData(p, s, bytes, w);
    FillZerosExact(Spliced(s.cache[idx].data, from, bytes), SizeThen(p, s, bytes, w), idx, from + |bytes|, j);
  }

  /** The bytes that were sent below. */
  lemma OutgoingByte(p: Primitives, s: File, bytes: seq<Byte>, j: nat)
    requires Inv(s) && s.pending.Some? && s.pending.value.pos % PAGE_SIZE + |bytes| <= PAGE_SIZE && j < |bytes|
    ensures Outgoing(p, CopyIn(s, bytes), |bytes|)[j] ==
            if s.key.None? then bytes[j] else CopiedByte(s, bytes, j).Xor(p.Keystream(s.key.value, j))
  {
  }

  /** Every byte of the lower file after `w` bytes were stored at the page's start:
      of the page, encrypted, with a key, and of the chunk without one. */
  lemma FinishedLower(p: Primitives, s: File, bytes: seq<Byte>, w: nat, i: nat)
    requires Inv(s) && Enabled(s, FinishOp(bytes, Some(w)))
    ensures
      var start, t := Start(s.pending.value.pos / PAGE_SIZE), Finish(p, s, bytes, w);
      && |t.lower| == (if w == 0 then |s.lower| else Max(|s.lower|, start + w))
      && (i < |t.lower| ==>
            t.lower[i] ==
            if start <= i < start + w then
              if s.key.None? then bytes[i - start]
              else CopiedByte(s, bytes, i - start).Xor(p.Keystream(s.key.value, i - start))
            else if i < |s.lower| then s.lower[i] else ZERO)
  {
    var start, out := Start(s.pending.value.pos / PAGE_SIZE), Outgoing(p, CopyIn(s, bytes), |bytes|);
    assert Finish(p, s, bytes, w).lower == WriteAt(s.lower, start, out[..w], ZERO);
    if start <= i < start + w {
      OutgoingByte(p, s, bytes, i - start);
    }
  }

  /** Without a scratch page the copied bytes stay in the page and nothing else
      changes; the page is let go all the same. */
  lemma AbandonExactly(p: Primitives, s: File, bytes: seq<Byte>, j: nat)
    requires Inv(s) && Enabled(s, FinishOp(bytes, None)) && j < PAGE_SIZE
    ensures
      var idx, t := s.pending.value.pos / PAGE_SIZE, Abandon(p, s, bytes);
      && WriteEnd(p, CopyIn(s, bytes), |bytes|, None).1 == 0
      && t.lower == s.lower && t.size == s.size && t.key == s.key && t.pending == None
      && SameHandle(s, t) && OtherPages(s, t, idx)
      && Cached(t, idx) && Unlocked(t, idx) && t.cache[idx].refs == 0
      && t.cache[idx].data[j] == CopiedByte(s, bytes, j)
  {
  }

  lemma CachedReads(p: Primitives, t: File, idx: nat, j: nat, blank: PageData, scratch: PageData)
    requires Inv(t) && Cached(t, idx) && j < PAGE_SIZE
    ensures ReadByte(p, t, Start(idx) + j, blank, scratch) == Some(t.cache[idx].data[j])
  {
    InPage(idx, j);
  }

  /** The write of `bytes` at `pos` is over, and its byte `j` is what is read. */
  ghost predicate Written(p: Primitives, t: File, pos: nat, bytes: seq<Byte>, j: nat, blank: PageData,
                          scratch: PageData)
    requires Inv(t) && j < |bytes|
  {
    t.pending.None? && pos + |bytes| <= t.size && ReadByte(p, t, pos + j, blank, scratch) == Some(bytes[j])
  }

  lemma FinishThenRead(p: Primitives, s: File, bytes: seq<Byte>, w: int, j: nat, blank: PageData, scratch: PageData)
    requires Inv(s) && Enabled(s, FinishOp(bytes, Some(w))) && j < |bytes|
    ensures Written(p, Finish(p, s, bytes, w), s.pending.value.pos, bytes, j, blank, scratch)
  {
    var idx, at := s.pending.value.pos / PAGE_SIZE, s.pending.value.pos % PAGE_SIZE + j;
    assert Start(idx) + at == s.pending.value.pos + j;
    FinishExactly(p, s, bytes, w);
    FinishedBytes(p, s, bytes, w, at);
    CachedReads(p, Finish(p, s, bytes, w), idx, at, blank, scratch);
  }

  /** A write can be made on any unlocked page of an open file that has a key. */
  lemma WriteRuns(p: Primitives, s: File, pos: nat, bytes: seq<Byte>, w: int, page: PageData)
    requires Inv(s) && s.isOpen && s.key.Some? && s.pending.None? && Unlocked(s, pos / PAGE_SIZE)
    requires pos % PAGE_SIZE + |bytes| <= PAGE_SIZE && bytes != [] && w <= |bytes|
    ensures
      var s1 := WriteBegin(s, pos, |bytes|, Some(page)).0;
      && Inv(s1) && Enabled(s1, FinishOp(bytes, Some(w))) && s1.pending.value.pos == pos
      && Run(p, s, [BeginOp(pos, |bytes|, Some(page)), FinishOp(bytes, Some(w))]) == Finish(p, s1, bytes, w)
  {
    var a, b := BeginOp(pos, |bytes|, Some(page)), FinishOp(bytes, Some(w));
    BeginKeeps(s, pos, |bytes|, Some(page));
    RunCons(p, Next(p, s, a), Plain, b, []);
    RunCons(p, s, Plain, a, [b] + []);
    assert [a, b] == [a] + ([b] + []);
  }

  /** And at any offset, whatever became of it below, it is what is read next. */
  lemma WriteThenRead(p: Primitives, s: File, pos: nat, bytes: seq<Byte>, w: int, page: PageData, j: nat,
                      blank: PageData, scratch: PageData)
    requires Inv(s) && s.isOpen && s.key.Some? && s.pending.None? && Unlocked(s, pos / PAGE_SIZE)
    requires pos % PAGE_SIZE + |bytes| <= PAGE_SIZE && j < |bytes| && w <= |bytes|
    ensures Written(p, Run(p, s, [BeginOp(pos, |bytes|, Some(page)), FinishOp(bytes, Some(w))]),
                    pos, bytes, j, blank, scratch)
  {
    WriteRuns(p, s, pos, bytes, w, page);
    FinishThenRead(p, WriteBegin(s, pos, |bytes|, Some(page)).0, bytes, w, j, blank, scratch);
  }

  // ---------- readpage ----------

  /** readpage fails for want of a key or of a scratch page, and only then; it
      stays locked without a key, and nothing but the page changes. */
  lemma ReadExactly(p: Primitives, s: File, idx: nat, blank: PageData, scratch: Option<PageData>, r: int)
    requires Inv(s) && Enabled(s, ReadOp(idx, blank, scratch, r))
    ensures
      var (t, err) := ReadPage(p, s, idx, blank, scratch, r);
      && err == (if s.key.None? then -EPERM else if scratch.None? then -ENOMEM else 0)
      && t.lower == s.lower && t.size == s.size && t.key == s.key && t.pending == s.pending
      && SameHandle(s, t) && OtherPages(s, t, idx)
      && idx in t.cache && (t.cache[idx].locked <==> s.key.None?) && (t.cache[idx].uptodate <==> err == 0)
  {
  }

  /** Every byte of the page: what was read, or what the scratch page held, decrypted. */
  lemma ReadBytes(p: Primitives, s: File, k: Key, idx: nat, blank: PageData, scratch: PageData, r: int, j: nat)
    requires Inv(s) && Enabled(s, ReadOp(idx, blank, Some(scratch), r)) && s.key == Some(k) && j < PAGE_SIZE
    ensures ReadPage(p, s, idx, blank, Some(scratch), r).0.cache[idx].data[j] ==
            (if j < r then s.lower[Start(idx) + j] else scratch[j]).Xor(p.Keystream(k, j))
  {
    IncomingByte(s.lower, idx, scratch, r, j);
    var raw := Incoming(s.lower, idx, scratch, r);
    assert p.Crypt(k, raw)[j] == raw[j].Xor(p.Keystream(k, j));
  }

  lemma IncomingByte(lower: seq<Byte>, idx: nat, scratch: PageData, r: int, j: nat)
    requires r <= PAGE_SIZE && (r > 0 ==> Start(idx) + r <= |lower|) && j < PAGE_SIZE
    ensures Incoming(lower, idx, scratch, r)[j] == if j < r then lower[Start(idx) + j] else scratch[j]
  {
  }

  // ---------- truncation ----------

  /** A refused truncation does nothing; any other sets the size and drops the
      pages from there on, and resizes the lower file if that is not refused. */
  lemma TruncateExactly(s: File, n: nat, sizeOk: bool, lowerOk: bool)
    ensures
      var t := Truncate(s, n, sizeOk, lowerOk);
      && t.key == s.key && t.pending == s.pending && SameHandle(s, t)
      && (!sizeOk ==> t == s)
      && (sizeOk ==> t.size == n && forall idx: nat :: idx in t.cache <==> idx in s.cache && Start(idx) < n)
      && (sizeOk && !lowerOk ==> t.lower == s.lower)
      && (sizeOk && lowerOk ==>
            |t.lower| == n && forall i :: 0 <= i < n ==> t.lower[i] == if i < |s.lower| then s.lower[i] else ZERO)
  {
  }

  /** Of a page that stays, the bytes below the new size stay, and the rest is zero. */
  lemma TruncatedBytes(s: File, n: nat, lowerOk: bool, idx: nat, j: nat)
    requires idx in s.cache && Start(idx) < n && j < PAGE_SIZE
    ensures
      var pg, was := Truncate(s, n, true, lowerOk).cache[idx], s.cache[idx];
      && pg.uptodate == was.uptodate && pg.locked == was.locked && pg.refs == was.refs
      && pg.data[j] == if Start(idx) + j < n then was.data[j] else ZERO
  {
  }

  /** So a cached byte cut off by a truncation is gone: it reads as zero when the
      file grows again. */
  lemma CutOffReadsZero(p: Primitives, s: File, n: nat, m: nat, a: bool, b: bool, i: nat, blank: PageData,
                        scratch: PageData)
    requires Inv(s) && Enabled(s, TruncateOp(n, true, a)) && Cached(s, i / PAGE_SIZE)
    requires Start(i / PAGE_SIZE) < n <= i < m && Enabled(Truncate(s, n, true, a), TruncateOp(m, true, b))
    ensures
      var t := Apply(p, Apply(p, s, TruncateOp(n, true, a)), TruncateOp(m, true, b));
      ReadByte(p, t, i, blank, scratch) == Some(ZERO)
  {
    var idx, u := i / PAGE_SIZE, Truncate(s, n, true, a);
    assert Start(idx) + i % PAGE_SIZE == i;
    TruncateExactly(s, n, true, a);
    TruncatedBytes(s, n, a, idx, i % PAGE_SIZE);
    TruncatedBytes(u, m, b, idx, i % PAGE_SIZE);
  }

  // ---------- the key ----------

  /** Key gating after a clear: once the string "0" is set, no run that sets no
      key stores a byte or makes a page readable, a write is refused, and a page
      that was not cached gives a reader nothing. */
  lemma ClearedKeyGates(p: Primitives, s: File, len: nat, ops: seq<Op>, i: nat, blank: PageData, scratch: PageData)
    requires Inv(s) && s.pending.None? && Follows(p, Keyless, Next(p, s, SetKeyOp("0", len)), ops)
    ensures
      var t := Run(p, Next(p, s, SetKeyOp("0", len)), ops);
      && NothingStored(s, t)
      && (!Cached(s, i / PAGE_SIZE) ==> ReadByte(p, t, i, blank, scratch) == None)
      && (Unlocked(t, i / PAGE_SIZE) ==> WriteBegin(t, i, 1, Some(blank)) == (t, -EPERM))
  {
    KeylessRunStoresNothing(p, Next(p, s, SetKeyOp("0", len)), ops);
  }

  // ---------- open, release, evict ----------

  /** A file is open from a successful open to its release, and only then has it a
      lower file; nothing else changes. */
  lemma OpenExactly(p: Primitives, s: File, o: OpenOutcome)
    requires Inv(s) && Enabled(s, OpenOp(o))
    ensures
      var (t, err) := Open(s, o);
      && t == s.(isOpen := t.isOpen, lowerFile := t.lowerFile, priv := t.priv)
      && (t.isOpen <==> o.Opens?) && (t.lowerFile <==> o.Opens?) && (t.priv == Live <==> o.Opens?)
      && (o.Opens? ==> err == 0 && Run(p, t, [ReleaseOp]) == s.(priv := Freed))
  {
    if o.Opens? {
      var t := Open(s, o).0;
      RunCons(p, t, Plain, ReleaseOp, []);
      assert [ReleaseOp] == [ReleaseOp] + [];
      assert Enabled(t, ReleaseOp);
    }
  }

  /** Eviction drops the pages and lets the lower inode go, and no more; looked up
      again the inode is a fresh one over the lower file. */
  lemma EvictThenIget(p: Primitives, s: File)
    requires Inv(s) && Enabled(s, EvictOp)
    ensures
      var t := Apply(p, s, EvictOp);
      && !t.live && !t.lowerInode && t.cache == map[]
      && t.lower == s.lower && t.size == s.size && t.key == s.key && t.priv == s.priv
    ensures Run(p, s, [EvictOp, IgetOp]) == Fresh(s.lower).(key := s.key, priv := s.priv)
  {
    RunCons(p, Next(p, s, EvictOp), Plain, IgetOp, []);
    RunCons(p, s, Plain, EvictOp, [IgetOp] + []);
    assert [EvictOp, IgetOp] == [EvictOp] + ([IgetOp] + []);
  }
}
