/** Where the page path parts from a plain file, each with the exact condition,
    and what every run keeps: sizes, locks, and what leaves the machine in the
    clear. */
module FileLimits {
  import opened Common
  import opened PageCipher
  import opened PageCache
  import opened FileRuns
  import opened FileTheorems

  // ---------- one chunk against a plain write ----------

  ghost predicate IsPlainWrite(p: Primitives, s: File, k: Key, bytes: seq<Byte>)
    requires Inv(s) && Enabled(s, FinishOp(bytes, Some(|bytes|)))
  {
    ClearFile(p, k, Finish(p, s, bytes, |bytes|).lower) ==
    WriteAt(ClearFile(p, k, s.lower), s.pending.value.pos, bytes, ZERO)
  }

  /** Storing `out` at `start` is, once decrypted, a plain write of `bytes` at `pos`. */
  ghost predicate PlainStore(p: Primitives, k: Key, lower: seq<Byte>, start: nat, out: seq<Byte>, pos: nat,
                             bytes: seq<Byte>) {
    ClearFile(p, k, WriteAt(lower, start, out, ZERO)) == WriteAt(ClearFile(p, k, lower), pos, bytes, ZERO)
  }

  lemma ChunkStores(p: Primitives, s: File, k: Key, bytes: seq<Byte>)
    requires Inv(s) && Enabled(s, FinishOp(bytes, Some(|bytes|)))
    ensures
      var pos := s.pending.value.pos;
      IsPlainWrite(p, s, k, bytes) <==>
      PlainStore(p, k, s.lower, Start(pos / PAGE_SIZE), Outgoing(p, CopyIn(s, bytes), |bytes|), pos, bytes)
  {
    FinishEffect(p, s, bytes);
  }

  /** Storing masked bytes at `pos` is, once decrypted, a plain write of the
      bytes iff the keystream is zero over the hole it leaves. */
  lemma MaskedStoreIff(p: Primitives, k: Key, lower: seq<Byte>, pos: nat, out: seq<Byte>, bytes: seq<Byte>)
    requires |out| == |bytes| > 0
    requires forall j :: 0 <= j < |out| ==> out[j] == bytes[j].Xor(p.Keystream(k, (pos + j) % PAGE_SIZE))
    ensures PlainStore(p, k, lower, pos, out, pos, bytes) <==>
            forall i :: |lower| <= i < pos ==> p.Keystream(k, i % PAGE_SIZE) == ZERO
  {
    var l := WriteAt(lower, pos, out, ZERO);
    var got, want := ClearFile(p, k, l), WriteAt(ClearFile(p, k, lower), pos, bytes, ZERO);
    forall i | 0 <= i < |l|
      ensures got[i] == want[i] <==> !(|lower| <= i < pos && p.Keystream(k, i % PAGE_SIZE) != ZERO)
    {
      var pad := p.Keystream(k, i % PAGE_SIZE);
      if pos <= i < pos + |bytes| {
        assert l[i] == out[i - pos] && want[i] == bytes[i - pos];
        XorCancels(bytes[i - pos], pad);
      } else if i < |lower| {
        assert l[i] == lower[i] && want[i] == ClearFile(p, k, lower)[i];
      } else {
        assert l[i] == ZERO && want[i] == ZERO && got[i] == pad;
      }
    }
    if got == want {
      forall i | |lower| <= i < pos
        ensures p.Keystream(k, i % PAGE_SIZE) == ZERO
      {
        assert got[i] == want[i];
      }
    }
  }

  /** An aligned chunk is a plain write iff the keystream is zero over the hole
      it leaves: a hole decrypts to keystream, where a plain file has zeros. */
  lemma AlignedChunkIff(p: Primitives, s: File, k: Key, bytes: seq<Byte>)
    requires Inv(s) && Enabled(s, FinishOp(bytes, Some(|bytes|))) && s.key == Some(k) && bytes != []
    requires s.pending.value.pos % PAGE_SIZE == 0
    ensures IsPlainWrite(p, s, k, bytes) <==>
            forall i :: |s.lower| <= i < s.pending.value.pos ==> p.Keystream(k, i % PAGE_SIZE) == ZERO
  {
    var pos, out := s.pending.value.pos, Outgoing(p, CopyIn(s, bytes), |bytes|);
    assert Start(pos / PAGE_SIZE) == pos;
    forall j | 0 <= j < |out|
      ensures out[j] == bytes[j].Xor(p.Keystream(k, (pos + j) % PAGE_SIZE))
    {
      OutgoingMasked(p, s, bytes, j);
      InPage(pos / PAGE_SIZE, j);
    }
    MaskedStoreIff(p, k, s.lower, pos, out, bytes);
    ChunkStores(p, s, k, bytes);
  }

  /** `n` bytes whose last differs from what a plain file has in its place. */
  function Unlike(p: Primitives, k: Key, lower: seq<Byte>, pos: nat, n: nat): (bytes: seq<Byte>)
    requires n > 0
    ensures |bytes| == n
  {
    var last := pos + n - 1;
    var there := if last < |lower| then ClearFile(p, k, lower)[last] else ZERO;
    seq(n, _ => there.(b0 := !there.b0))
  }

  /** Stored further down, they miss the last place of the write. */
  lemma ShortStoreDiffers(p: Primitives, k: Key, lower: seq<Byte>, start: nat, out: seq<Byte>, pos: nat, n: nat)
    requires |out| == n > 0 && start < pos <= |lower|
    ensures !PlainStore(p, k, lower, start, out, pos, Unlike(p, k, lower, pos, n))
  {
    var last, bytes := pos + n - 1, Unlike(p, k, lower, pos, n);
    var stored, want := WriteAt(lower, start, out, ZERO), WriteAt(ClearFile(p, k, lower), pos, bytes, ZERO);
    assert |want| > last && want[last] == bytes[n - 1];
    if last < |stored| {
      assert stored[last] == lower[last];
    }
  }

  lemma UnalignedChunkDiffers(p: Primitives, s: File, k: Key, n: nat)
    requires Inv(s) && s.isOpen && s.pending.Some? && 0 < n <= s.pending.value.len
    requires Start(s.pending.value.pos / PAGE_SIZE) < s.pending.value.pos <= |s.lower|
    ensures !IsPlainWrite(p, s, k, Unlike(p, k, s.lower, s.pending.value.pos, n))
  {
    var pos := s.pending.value.pos;
    var bytes := Unlike(p, k, s.lower, pos, n);
    ShortStoreDiffers(p, k, s.lower, Start(pos / PAGE_SIZE), Outgoing(p, CopyIn(s, bytes), n), pos, n);
    ChunkStores(p, s, k, bytes);
  }

  /** A chunk that leaves no hole is a plain write, whatever its bytes, iff it
      starts at a page's start: at any other offset the code still stores at the
      page's start and the last byte never reaches its place. */
  lemma ChunkIsPlainIff(p: Primitives, s: File, k: Key, n: nat)
    requires Inv(s) && s.isOpen && s.pending.Some? && s.key == Some(k)
    requires 0 < n <= s.pending.value.len && s.pending.value.pos <= |s.lower|
    ensures (forall bytes: seq<Byte> | |bytes| == n :: IsPlainWrite(p, s, k, bytes)) <==>
            s.pending.value.pos % PAGE_SIZE == 0
  {
    if s.pending.value.pos % PAGE_SIZE == 0 {
      forall bytes: seq<Byte> | |bytes| == n
        ensures IsPlainWrite(p, s, k, bytes)
      {
        AlignedChunkIff(p, s, k, bytes);
      }
    } else {
      UnalignedChunkDiffers(p, s, k, n);
    }
  }

  /** A page that was not up to date, as write_begin leaves it outside the chunk. */
  lemma BegunUnfilled(s: File, pos: nat, len: nat, blank: PageData, j: nat)
    requires Inv(s) && s.key.Some? && Enabled(s, BeginOp(pos, len, Some(blank))) && !Cached(s, pos / PAGE_SIZE)
    requires j < PAGE_SIZE && !(pos % PAGE_SIZE <= j < pos % PAGE_SIZE + len)
    ensures
      var b := WriteBegin(s, pos, len, Some(blank)).0;
      && Inv(b) && b.isOpen && b.key == s.key && b.lower == s.lower && b.pending == Some(Pending(pos, len, false))
      && b.cache[pos / PAGE_SIZE].data[j] == ZERO
  {
    BeginKeeps(s, pos, len, Some(blank));
  }

  lemma BlankFinished(p: Primitives, b: File, k: Key, bytes: seq<Byte>, j: nat)
    requires Inv(b) && b.key == Some(k) && Enabled(b, FinishOp(bytes, Some(|bytes|))) && bytes != [] && j < PAGE_SIZE
    requires
      var idx, from := b.pending.value.pos / PAGE_SIZE, b.pending.value.pos % PAGE_SIZE;
      !(from <= j < from + |bytes|) && b.cache[idx].data[j] == ZERO
    ensures
      var idx, t := b.pending.value.pos / PAGE_SIZE, Finish(p, b, bytes, |bytes|);
      && t.cache[idx].data[j] == ZERO
      && (j < |bytes| ==> Start(idx) + j < |t.lower|)
      && (CoherentAt(p, t, k, idx, j) <==> j < |bytes| || Agrees(p, Some(k), idx, b.cache[idx].data, b.lower, j))
  {
    var idx, from := b.pending.value.pos / PAGE_SIZE, b.pending.value.pos % PAGE_SIZE;
    FinishPage(p, b, bytes);
    ChunkAgrees(p, b, bytes, Some(k), j);
    assert Spliced(b.cache[idx].data, from, bytes)[j] == ZERO;
  }

  /** A partial write to a page that is not up to date is not preceded by a read:
      the rest of the page is zeroed. Outside the chunk the page then shows what
      the lower file holds iff it was stored with the chunk, or the lower file is
      zero there, or has ended. */
  lemma UnfilledCoherentIff(p: Primitives, s: File, k: Key, pos: nat, len: nat, bytes: seq<Byte>, blank: PageData,
                            j: nat)
    requires Inv(s) && s.key == Some(k) && Enabled(s, BeginOp(pos, len, Some(blank))) && !Cached(s, pos / PAGE_SIZE)
    requires 0 < |bytes| <= len && j < PAGE_SIZE && !(pos % PAGE_SIZE <= j < pos % PAGE_SIZE + len)
    ensures
      var idx, b := pos / PAGE_SIZE, WriteBegin(s, pos, len, Some(blank)).0;
      CoherentAt(p, Finish(p, b, bytes, |bytes|), k, idx, j) <==>
      (j < |bytes| || (Start(idx) + j < |s.lower| ==> s.lower[Start(idx) + j].Xor(p.Keystream(k, j)) == ZERO))
  {
    BegunUnfilled(s, pos, len, blank, j);
    BlankFinished(p, WriteBegin(s, pos, len, Some(blank)).0, k, bytes, j);
  }

  /** And what was stored with the chunk, before it, is zeros: the head of the page
      that the file had is lost, unless it was zero. */
  lemma HeadLost(p: Primitives, s: File, k: Key, pos: nat, len: nat, bytes: seq<Byte>, blank: PageData, j: nat)
    requires Inv(s) && s.key == Some(k) && Enabled(s, BeginOp(pos, len, Some(blank))) && !Cached(s, pos / PAGE_SIZE)
    requires |bytes| <= len && j < |bytes| && j < pos % PAGE_SIZE
    ensures
      var at, t := Start(pos / PAGE_SIZE) + j, Finish(p, WriteBegin(s, pos, len, Some(blank)).0, bytes, |bytes|);
      && at < |t.lower| && t.lower[at].Xor(p.Keystream(k, j)) == ZERO
      && (at < |s.lower| ==> (t.lower[at] == s.lower[at] <==> s.lower[at].Xor(p.Keystream(k, j)) == ZERO))
  {
    BegunUnfilled(s, pos, len, blank, j);
    BlankFinished(p, WriteBegin(s, pos, len, Some(blank)).0, k, bytes, j);
  }

  // ---------- short and failing lower calls ----------

  lemma FinishUnderKey(p: Primitives, s: File, bytes: seq<Byte>, w: int)
    requires Inv(s) && Enabled(s, FinishOp(bytes, Some(w))) && s.key.Some?
    ensures
      var idx := s.pending.value.pos / PAGE_SIZE;
      Finish(p, s, bytes, w).lower ==
        if w < 0 then s.lower
        else WriteAt(s.lower, Start(idx), p.Crypt(s.key.value, CopyIn(s, bytes).cache[idx].data)[..w], ZERO)
  {
    if w >= 0 {
      var idx := s.pending.value.pos / PAGE_SIZE;
      var c := p.Crypt(s.key.value, CopyIn(s, bytes).cache[idx].data);
      assert c[..|bytes|][..w] == c[..w];
    }
  }

  /** Byte `j` of a write is there already. */
  predicate There(f: seq<Byte>, pos: nat, bytes: seq<Byte>, j: nat)
    requires j < |bytes|
  {
    pos + j < |f| && f[pos + j] == bytes[j]
  }

  /** Part of a write is the whole of it iff the rest was there already. */
  lemma PartWriteIff(f: seq<Byte>, pos: nat, bytes: seq<Byte>, n: nat)
    requires pos <= |f| && n <= |bytes|
    ensures WriteAt(f, pos, bytes[..n], ZERO) == WriteAt(f, pos, bytes, ZERO) <==>
            forall j :: n <= j < |bytes| ==> There(f, pos, bytes, j)
  {
    var part, whole := WriteAt(f, pos, bytes[..n], ZERO), WriteAt(f, pos, bytes, ZERO);
    if part == whole {
      forall j | n <= j < |bytes|
        ensures There(f, pos, bytes, j)
      {
        assert whole[pos + j] == bytes[j];
      }
    }
    if forall j :: n <= j < |bytes| ==> There(f, pos, bytes, j) {
      if n < |bytes| {
        assert There(f, pos, bytes, |bytes| - 1);
      }
      forall i | 0 <= i < |whole|
        ensures i < |part| && part[i] == whole[i]
      {
        assert pos + n <= i < pos + |bytes| ==> There(f, pos, bytes, i - pos);
      }
    }
  }

  /** The first `n` bytes that a chunk sends below under a key. */
  function Sent(p: Primitives, s: File, k: Key, bytes: seq<Byte>, n: nat): (out: seq<Byte>)
    requires InFlight(s) && n <= PAGE_SIZE
    ensures |out| == n
  {
    p.Crypt(k, CopyIn(s, bytes).cache[s.pending.value.pos / PAGE_SIZE].data)[..n]
  }

  lemma SentLower(p: Primitives, s: File, k: Key, bytes: seq<Byte>, w: int)
    requires Inv(s) && Enabled(s, FinishOp(bytes, Some(w))) && s.key == Some(k)
    ensures Finish(p, s, bytes, w).lower ==
            WriteAt(s.lower, Start(s.pending.value.pos / PAGE_SIZE), Sent(p, s, k, bytes, Max(0, w)), ZERO)
  {
    FinishUnderKey(p, s, bytes, w);
  }

  /** Of an aligned chunk that is the chunk itself, masked. */
  lemma SentAligned(p: Primitives, s: File, k: Key, bytes: seq<Byte>, n: nat, j: nat)
    requires InFlight(s) && s.pending.value.pos % PAGE_SIZE == 0 && j < n <= |bytes| <= PAGE_SIZE
    ensures Sent(p, s, k, bytes, n)[j] == bytes[..n][j].Xor(p.Keystream(k, (s.pending.value.pos + j) % PAGE_SIZE))
  {
    InPage(s.pending.value.pos / PAGE_SIZE, j);
  }

  /** Masked bytes stored where they leave no hole are, decrypted, a plain write. */
  lemma MaskedStore(p: Primitives, k: Key, lower: seq<Byte>, pos: nat, out: seq<Byte>, bytes: seq<Byte>)
    requires |out| == |bytes| && pos <= |lower|
    requires forall j :: 0 <= j < |out| ==> out[j] == bytes[j].Xor(p.Keystream(k, (pos + j) % PAGE_SIZE))
    ensures PlainStore(p, k, lower, pos, out, pos, bytes)
  {
    if out != [] {
      MaskedStoreIff(p, k, lower, pos, out, bytes);
    }
  }

  lemma ShortStore(p: Primitives, s: File, k: Key, bytes: seq<Byte>, w: int)
    requires Inv(s) && Enabled(s, FinishOp(bytes, Some(w))) && s.key == Some(k)
    requires s.pending.value.pos % PAGE_SIZE == 0 && s.pending.value.pos <= |s.lower|
    ensures ClearFile(p, k, Finish(p, s, bytes, w).lower) ==
            WriteAt(ClearFile(p, k, s.lower), s.pending.value.pos, bytes[..Max(0, w)], ZERO)
  {
    var pos, n := s.pending.value.pos, Max(0, w);
    assert Start(pos / PAGE_SIZE) == pos;
    forall j | 0 <= j < n
      ensures Sent(p, s, k, bytes, n)[j] == bytes[..n][j].Xor(p.Keystream(k, (pos + j) % PAGE_SIZE))
    {
      SentAligned(p, s, k, bytes, n, j);
    }
    MaskedStore(p, k, s.lower, pos, Sent(p, s, k, bytes, n), bytes[..n]);
    SentLower(p, s, k, bytes, w);
  }

  /** An aligned write that leaves no hole and of which `w` bytes, or none, reach
      the lower file is the plain write of those; write_end reports all of them,
      whatever became of the rest. It is the plain write of all of them iff the
      rest was there already. */
  lemma ShortWriteIff(p: Primitives, s: File, k: Key, bytes: seq<Byte>, w: int)
    requires Inv(s) && Enabled(s, FinishOp(bytes, Some(w))) && s.key == Some(k)
    requires s.pending.value.pos % PAGE_SIZE == 0 && s.pending.value.pos <= |s.lower|
    ensures
      var pos, clear := s.pending.value.pos, ClearFile(p, k, s.lower);
      var got := ClearFile(p, k, Finish(p, s, bytes, w).lower);
      && got == WriteAt(clear, pos, bytes[..Max(0, w)], ZERO)
      && (got == WriteAt(clear, pos, bytes, ZERO) <==>
          forall j :: Max(0, w) <= j < |bytes| ==> There(clear, pos, bytes, j))
    ensures WriteEnd(p, CopyIn(s, bytes), |bytes|, Some(w)).1 == |bytes|
  {
    ShortStore(p, s, k, bytes, w);
    PartWriteIff(ClearFile(p, k, s.lower), s.pending.value.pos, bytes, Max(0, w));
  }

  /** Without a scratch page nothing is stored and 0 reported, but the copied bytes
      stay in the page: a coherent page loses coherence wherever they changed it. */
  lemma NoScratchIff(p: Primitives, s: File, k: Key, bytes: seq<Byte>, j: nat)
    requires Inv(s) && Enabled(s, FinishOp(bytes, None)) && j < PAGE_SIZE
    requires CoherentAt(p, s, k, s.pending.value.pos / PAGE_SIZE, j)
    ensures
      var idx, from, t := s.pending.value.pos / PAGE_SIZE, s.pending.value.pos % PAGE_SIZE, Abandon(p, s, bytes);
      && t.lower == s.lower && t.size == s.size && Cached(t, idx)
      && WriteEnd(p, CopyIn(s, bytes), |bytes|, None).1 == 0
      && (!CoherentAt(p, t, k, idx, j) <==>
          from <= j < from + |bytes| && Start(idx) + j < |s.lower| && bytes[j - from] != s.cache[idx].data[j])
  {
  }

  /** A lower read of `r` bytes, or a failed one, leaves the page up to date and
      reports success all the same. A byte agrees iff it was read, or the lower
      file has ended there, or the scratch page happened to hold it. */
  lemma ShortReadIff(p: Primitives, s: File, k: Key, idx: nat, blank: PageData, scratch: PageData, r: int, j: nat)
    requires Inv(s) && Enabled(s, ReadOp(idx, blank, Some(scratch), r)) && s.key == Some(k) && j < PAGE_SIZE
    ensures
      var (t, err) := ReadPage(p, s, idx, blank, Some(scratch), r);
      && err == 0 && Cached(t, idx) && Unlocked(t, idx)
      && (CoherentAt(p, t, k, idx, j) <==>
          (j < r || |s.lower| <= Start(idx) + j || scratch[j] == s.lower[Start(idx) + j]))
  {
    var raw, pad := Incoming(s.lower, idx, scratch, r), p.Keystream(k, j);
    if Start(idx) + j < |s.lower| {
      XorCancels(raw[j], pad);
      XorCancels(s.lower[Start(idx) + j], pad);
    }
  }

  /** A truncation that grows the file is a plain one iff the keystream is zero
      over what it adds, which decrypts to keystream; one that shrinks it is. */
  lemma TruncateIsPlainIff(p: Primitives, s: File, k: Key, n: nat)
    ensures ClearFile(p, k, Truncate(s, n, true, true).lower) == Resize(ClearFile(p, k, s.lower), n) <==>
            forall i :: |s.lower| <= i < n ==> p.Keystream(k, i % PAGE_SIZE) == ZERO
  {
    var got, want := ClearFile(p, k, Resize(s.lower, n)), Resize(ClearFile(p, k, s.lower), n);
    forall i | 0 <= i < n
      ensures got[i] == want[i] <==> (i < |s.lower| || p.Keystream(k, i % PAGE_SIZE) == ZERO)
    {
    }
    if got == want {
      forall i | |s.lower| <= i < n
        ensures p.Keystream(k, i % PAGE_SIZE) == ZERO
      {
        assert got[i] == want[i];
      }
    }
  }

  // ---------- write-through ----------

  /** Every cached page belongs to a live inode, and a live inode has a lower
      one: so the guard of writepage as written always leaves, with success, and
      never goes on to a null inode; all is as before the page was locked. */
  lemma WritepageLeaves(s: File, idx: nat)
    requires Inv(s) && idx in s.cache && Unlocked(s, idx)
    ensures WritePage(LockPage(s, idx), idx) == (s, Some(0))
  {
    assert WritePage(LockPage(s, idx), idx).0.cache == s.cache;
  }

  predicate Quiet(ops: seq<Op>) {
    forall k | 0 <= k < |ops| :: !ops[k].FinishOp? && !ops[k].TruncateOp?
  }

  /** So only write_end and truncation ever change the lower file; and the size,
      unless the inode is looked up again and takes it from below. */
  lemma {:induction false} OnlyWritesChangeLower(p: Primitives, s: File, ops: seq<Op>)
    requires Inv(s) && Quiet(ops)
    ensures Run(p, s, ops).lower == s.lower
    ensures Run(p, s, ops).size == s.size || (IgetOp in ops && Run(p, s, ops).size == |s.lower|)
    decreases |ops|
  {
    if ops != [] {
      QuietStep(p, s, ops[0]);
      OnlyWritesChangeLower(p, Next(p, s, ops[0]), ops[1..]);
    }
  }

  lemma QuietStep(p: Primitives, s: File, op: Op)
    requires Inv(s) && !op.FinishOp? && !op.TruncateOp?
    ensures Next(p, s, op).lower == s.lower
    ensures Next(p, s, op).size == s.size || (op == IgetOp && Next(p, s, op).size == |s.lower|)
  {
  }

  /** Byte `j` of a cached page reads the same after some operations. */
  ghost predicate Survives(p: Primitives, t: File, ops: seq<Op>, idx: nat, j: nat, blank: PageData, scratch: PageData)
    requires Inv(t) && idx in t.cache && j < PAGE_SIZE
  {
    ReadByte(p, Run(p, t, ops), Start(idx) + j, blank, scratch) == Some(t.cache[idx].data[j])
  }

  /** The file is open with its key, and page `idx` has to be read again. */
  ghost predicate LeftCache(u: File, k: Key, idx: nat) {
    u.isOpen && u.key == Some(k) && !Cached(u, idx)
  }

  lemma ReadAgainIff(p: Primitives, u: File, k: Key, idx: nat, j: nat, b: Byte, blank: PageData, scratch: PageData)
    requires Inv(u) && LeftCache(u, k, idx) && j < PAGE_SIZE && Start(idx) + j < |u.lower|
    ensures ReadByte(p, u, Start(idx) + j, blank, scratch) == Some(b) <==>
            idx !in Stuck(u) && b == u.lower[Start(idx) + j].Xor(p.Keystream(k, j))
  {
    InPage(idx, j);
    ReadsBelow(p, u, k, Start(idx) + j, blank, scratch);
  }

  /** After any run without writes and truncations that put a page out of the
      cache, a byte of it survives iff it agreed with the lower file, since
      writepage stores nothing, and nobody asked for the page without a key. */
  lemma SurvivesIff(p: Primitives, t: File, k: Key, ops: seq<Op>, idx: nat, j: nat, blank: PageData, scratch: PageData)
    requires Inv(t) && Quiet(ops) && idx in t.cache && idx !in Stuck(t) && LeftCache(Run(p, t, ops), k, idx)
    requires j < PAGE_SIZE && Start(idx) + j < |t.lower|
    ensures Survives(p, t, ops, idx, j, blank, scratch) <==>
            idx !in KeylessReads(p, t, ops) && CoherentAt(p, t, k, idx, j)
  {
    OnlyWritesChangeLower(p, t, ops);
    StuckExactly(p, t, ops);
    ReadAgainIff(p, Run(p, t, ops), k, idx, j, t.cache[idx].data[j], blank, scratch);
  }

  /** What a finished chunk leaves of its page. */
  lemma FinishedPage(p: Primitives, s: File, bytes: seq<Byte>)
    requires Inv(s) && Enabled(s, FinishOp(bytes, Some(|bytes|)))
    ensures
      var idx, t := s.pending.value.pos / PAGE_SIZE, Finish(p, s, bytes, |bytes|);
      Enabled(t, DropOp(idx)) && t.cache[idx].uptodate && t.isOpen && t.key == s.key && idx !in Stuck(t)
  {
  }

  /** So no byte that write_end stored is lost, whatever is written back, dropped,
      re-read, closed or re-keyed afterwards. */
  lemma StoredBytesSurvive(p: Primitives, s: File, k: Key, bytes: seq<Byte>, ops: seq<Op>, j: nat, blank: PageData,
                           scratch: PageData)
    requires Inv(s) && Enabled(s, FinishOp(bytes, Some(|bytes|))) && s.key == Some(k) && j < |bytes|
    requires Quiet(ops) && LeftCache(Run(p, Finish(p, s, bytes, |bytes|), ops), k, s.pending.value.pos / PAGE_SIZE)
    ensures
      var idx, t := s.pending.value.pos / PAGE_SIZE, Finish(p, s, bytes, |bytes|);
      Survives(p, t, ops, idx, j, blank, scratch) <==> idx !in KeylessReads(p, t, ops)
  {
    ChunkAgrees(p, s, bytes, Some(k), j);
    FinishedPage(p, s, bytes);
    SurvivesIff(p, Finish(p, s, bytes, |bytes|), k, ops, s.pending.value.pos / PAGE_SIZE, j, blank, scratch);
  }

  /** Writeback followed by reclaim puts a free page out of the cache. */
  lemma Reclaims(p: Primitives, t: File, k: Key, idx: nat)
    requires Inv(t) && Enabled(t, DropOp(idx)) && t.cache[idx].uptodate && t.isOpen && t.key == Some(k)
    ensures LeftCache(Run(p, t, [WritebackOp(idx), DropOp(idx)]), k, idx)
    ensures KeylessReads(p, t, [WritebackOp(idx), DropOp(idx)]) == {}
  {
    var a, b := WritebackOp(idx), DropOp(idx);
    RunCons(p, Next(p, t, a), Plain, b, []);
    RunCons(p, t, Plain, a, [b] + []);
    assert [a, b] == [a] + ([b] + []);
  }

  /** Reclaiming a page after a chunk loses exactly the bytes that the chunk
      changed at or past `copied`. */
  lemma ReclaimLosesIff(p: Primitives, s: File, k: Key, bytes: seq<Byte>, j: nat, blank: PageData, scratch: PageData)
    requires Inv(s) && Enabled(s, FinishOp(bytes, Some(|bytes|))) && s.key == Some(k) && bytes != [] && j < PAGE_SIZE
    requires CoherentAt(p, s, k, s.pending.value.pos / PAGE_SIZE, j)
    requires Start(s.pending.value.pos / PAGE_SIZE) + j < |Finish(p, s, bytes, |bytes|).lower|
    ensures
      var idx, t := s.pending.value.pos / PAGE_SIZE, Finish(p, s, bytes, |bytes|);
      !Survives(p, t, [WritebackOp(idx), DropOp(idx)], idx, j, blank, scratch) <==> Misplaced(s, bytes, j)
  {
    var idx, t := s.pending.value.pos / PAGE_SIZE, Finish(p, s, bytes, |bytes|);
    FinishedPage(p, s, bytes);
    Reclaims(p, t, k, idx);
    SurvivesIff(p, t, k, [WritebackOp(idx), DropOp(idx)], idx, j, blank, scratch);
    CoherenceLost(p, s, k, bytes, j);
  }

  // ---------- sizes ----------

  /** Over every run whose lower writes store something, at any offsets and
      with holes, the upper size is at least the lower one and less than a page ahead. */
  lemma {:induction false} SizesStayClose(p: Primitives, s: File, ops: seq<Op>)
    requires Inv(s) && Follows(p, Sizes, s, ops) && |s.lower| <= s.size < |s.lower| + PAGE_SIZE
    ensures
      var t := Run(p, s, ops);
      |t.lower| <= t.size < |t.lower| + PAGE_SIZE
    decreases |ops|
  {
    if ops != [] {
      if Enabled(s, ops[0]) {
        SizesStep(p, s, ops[0]);
      }
      SizesStayClose(p, Next(p, s, ops[0]), ops[1..]);
    }
  }

  lemma SizesStep(p: Primitives, s: File, op: Op)
    requires Inv(s) && Enabled(s, op) && Allows(p, Sizes, s, op) && |s.lower| <= s.size < |s.lower| + PAGE_SIZE
    ensures
      var t := Apply(p, s, op);
      |t.lower| <= t.size < |t.lower| + PAGE_SIZE
  {
  }

  /** When every chunk starts at a page's start the two sizes stay equal, with
      holes and growing truncations or without. */
  lemma {:induction false} SizesStayEqual(p: Primitives, s: File, ops: seq<Op>)
    requires Inv(s) && Follows(p, AlignedSizes, s, ops) && s.size == |s.lower|
    requires s.pending.Some? ==> s.pending.value.pos % PAGE_SIZE == 0
    ensures Run(p, s, ops).size == |Run(p, s, ops).lower|
    decreases |ops|
  {
    if ops != [] {
      if Enabled(s, ops[0]) {
        AlignedSizesStep(p, s, ops[0]);
      }
      SizesStayEqual(p, Next(p, s, ops[0]), ops[1..]);
    }
  }

  lemma AlignedSizesStep(p: Primitives, s: File, op: Op)
    requires Inv(s) && Enabled(s, op) && Allows(p, AlignedSizes, s, op) && s.size == |s.lower|
    requires s.pending.Some? ==> s.pending.value.pos % PAGE_SIZE == 0
    ensures
      var t := Apply(p, s, op);
      t.size == |t.lower| && (t.pending.Some? ==> t.pending.value.pos % PAGE_SIZE == 0)
  {
    if op.FinishOp? {
      assert Start(s.pending.value.pos / PAGE_SIZE) == s.pending.value.pos;
      FinishEffect(p, s, op.bytes);
    }
  }

  /** The upper size is set before the lower file system is asked, so a
      truncation keeps the sizes equal iff the lower one does not fail. */
  lemma TruncateKeepsSizesIff(s: File, n: nat, sizeOk: bool, lowerOk: bool)
    requires s.size == |s.lower| && n != s.size
    ensures Truncate(s, n, sizeOk, lowerOk).size == |Truncate(s, n, sizeOk, lowerOk).lower| <==> !sizeOk || lowerOk
  {
  }

  // ---------- what is written in the clear ----------

  /** Step `k` of a run, if it is a write_end, finds a key, and what it stores is
      ciphertext of the page under that key and nothing else. */
  ghost predicate StoresCiphertext(p: Primitives, s: File, ops: seq<Op>, k: nat)
    requires Inv(s) && k < |ops|
  {
    var t, op := Run(p, s, ops[..k]), ops[k];
    op.FinishOp? && Enabled(t, op) ==>
      && t.key.Some?
      && Apply(p, t, op).lower ==
           if op.w.None? || op.w.value < 0 then t.lower
           else WriteAt(t.lower, Start(t.pending.value.pos / PAGE_SIZE),
                        Sent(p, t, t.key.value, op.bytes, op.w.value), ZERO)
  }

  /** Key gating: over every run, at any offsets, with holes, and whatever the
      lower calls return, if no key change falls inside a write then the
      unencrypted branch of write_end is never taken. */
  lemma {:induction false} ClearBranchNotTaken(p: Primitives, s: File, ops: seq<Op>, k: nat)
    requires Inv(s) && Follows(p, Steady, s, ops) && (s.pending.Some? ==> s.key.Some?) && k < |ops|
    ensures StoresCiphertext(p, s, ops, k)
    decreases k
  {
    if k == 0 {
      assert ops[..0] == [];
      if ops[0].FinishOp? && Enabled(s, ops[0]) && ops[0].w.Some? {
        FinishUnderKey(p, s, ops[0].bytes, ops[0].w.value);
      }
    } else {
      var t := Next(p, s, ops[0]);
      SteadyKeyed(p, s, ops[0]);
      ClearBranchNotTaken(p, t, ops[1..], k - 1);
      assert ops[..k][1..] == ops[1..][..k - 1];
    }
  }

  lemma SteadyKeyed(p: Primitives, s: File, op: Op)
    requires Inv(s) && (Enabled(s, op) ==> Allows(p, Steady, s, op)) && (s.pending.Some? ==> s.key.Some?)
    ensures Next(p, s, op).pending.Some? ==> Next(p, s, op).key.Some?
  {
  }

  predicate AllTagged(tags: seq<Option<Key>>) {
    forall i :: 0 <= i < |tags| ==> tags[i].Some?
  }

  /** So, where the plain file says what each byte was written under, no byte is
      in the clear. */
  lemma {:induction false} NothingInTheClear(p: Primitives, s: File, ref: Reference, ops: seq<Op>)
    requires Inv(s) && Refines(p, s, ref) && Follows(p, Plain, s, ops) && Follows(p, Steady, s, ops)
    requires s.pending.Some? ==> s.key.Some?
    requires AllTagged(ref.tags)
    ensures AllTagged(RefRun(p, s, ref, ops).tags)
    decreases |ops|
  {
    if ops != [] {
      SteadyKeyed(p, s, ops[0]);
      if Enabled(s, ops[0]) {
        StepRefines(p, s, ref, ops[0]);
        SteadyTags(p, s, ref, ops[0]);
      }
      NothingInTheClear(p, Next(p, s, ops[0]), RefNext(s, ref, ops[0]), ops[1..]);
    }
  }

  lemma SteadyTags(p: Primitives, s: File, ref: Reference, op: Op)
    requires Inv(s) && Enabled(s, op) && (s.pending.Some? ==> s.key.Some? && s.pending.value.pos <= |ref.tags|)
    requires |ref.bytes| == |ref.tags| && AllTagged(ref.tags)
    ensures AllTagged(RefNext(s, ref, op).tags)
  {
  }

  lemma ClearOutgoing(p: Primitives, s: File, bytes: seq<Byte>, j: nat)
    requires InFlight(s) && s.pending.value.pos % PAGE_SIZE + |bytes| <= PAGE_SIZE && s.key.None? && j < |bytes|
    ensures Outgoing(p, CopyIn(s, bytes), |bytes|)[j] == bytes[j]
  {
  }

  lemma WrittenAt<T>(f: seq<T>, off: nat, b: seq<T>, pad: T, j: nat)
    requires j < |b|
    ensures off + j < |WriteAt(f, off, b, pad)| && WriteAt(f, off, b, pad)[off + j] == b[j]
  {
  }

  /** A key cleared inside a write does let it through: with none set by
      write_end the copied bytes land as they are, at the start of the page. */
  lemma ClearedInsideWrite(p: Primitives, s: File, bytes: seq<Byte>, j: nat)
    requires Inv(s) && Enabled(s, FinishOp(bytes, Some(|bytes|))) && s.key.None? && j < |bytes|
    ensures
      var t, at := Finish(p, s, bytes, |bytes|), Start(s.pending.value.pos / PAGE_SIZE) + j;
      at < |t.lower| && t.lower[at] == bytes[j]
  {
    FinishEffect(p, s, bytes);
    ClearOutgoing(p, s, bytes, j);
    WrittenAt(s.lower, Start(s.pending.value.pos / PAGE_SIZE), Outgoing(p, CopyIn(s, bytes), |bytes|), ZERO, j);
  }

  /** Nothing of the file changed that a key would be needed for. */
  ghost predicate NothingStored(s: File, t: File) {
    && t.lower == s.lower && t.key.None? && t.pending.None?
    && forall idx: nat | Cached(t, idx) :: Cached(s, idx) && s.cache[idx].data == t.cache[idx].data
  }

  /** From a mount with no key, no run that sets none stores a byte, grows the
      file or makes a page readable. */
  lemma {:induction false} KeylessRunStoresNothing(p: Primitives, s: File, ops: seq<Op>)
    requires Inv(s) && Follows(p, Keyless, s, ops) && s.key.None? && s.pending.None?
    ensures NothingStored(s, Run(p, s, ops))
    ensures Run(p, s, ops).size == s.size || (IgetOp in ops && Run(p, s, ops).size == |s.lower|)
    decreases |ops|
  {
    if ops != [] {
      KeylessStep(p, s, ops[0]);
      KeylessRunStoresNothing(p, Next(p, s, ops[0]), ops[1..]);
    }
  }

  lemma KeylessStep(p: Primitives, s: File, op: Op)
    requires Inv(s) && s.key.None? && s.pending.None? && (Enabled(s, op) ==> Allows(p, Keyless, s, op))
    ensures NothingStored(s, Next(p, s, op))
    ensures Next(p, s, op).size == s.size || (op == IgetOp && Next(p, s, op).size == |s.lower|)
  {
  }
}
