/** What the page path promises a reader: exact effects of one write, coherence
    of the cache with the lower file, and a file that reads as a plain one. */
module FileTheorems {
  import opened Common
  import opened PageCipher
  import opened PageCache
  import opened FileRuns

  // ---------- zeroing the tail ----------

  /** Once the size reaches the page, zeroing clears exactly the bytes at or past
      the final size, exact page multiples included, and never one below it. */
  lemma FillZerosExact(d: PageData, size: nat, idx: nat, to: nat, j: nat)
    requires to <= PAGE_SIZE && j < PAGE_SIZE
    ensures Start(idx) + j < Max(size, Start(idx) + to) ==> FillZeros(d, size, idx, to)[j] == d[j]
    ensures Start(idx) <= size && Max(size, Start(idx) + to) <= Start(idx) + j ==>
            FillZeros(d, size, idx, to)[j] == ZERO
    ensures size < Start(idx) ==> FillZeros(d, size, idx, to) == d
  {
    var q, m := size / PAGE_SIZE, size % PAGE_SIZE;
    assert size == Start(q) + m;
    if q < idx {
      assert Start(q + 1) <= Start(idx);
    } else if idx < q {
      assert Start(idx + 1) <= Start(q);
    }
  }

  /** After a stored chunk every byte of its page at or past the upper size is zero. */
  lemma TailIsZero(p: Primitives, s: File, bytes: seq<Byte>, j: nat)
    requires Inv(s) && Enabled(s, FinishOp(bytes, Some(|bytes|))) && bytes != [] && j < PAGE_SIZE
    ensures
      var idx, t := s.pending.value.pos / PAGE_SIZE, Finish(p, s, bytes, |bytes|);
      t.size <= Start(idx) + j ==> t.cache[idx].data[j] == ZERO
  {
    var pos, t := s.pending.value.pos, Finish(p, s, bytes, |bytes|);
    var idx, to := pos / PAGE_SIZE, pos % PAGE_SIZE + |bytes|;
    FinishEffect(p, s, bytes);
    FillZerosExact(CopyIn(s, bytes).cache[idx].data, |t.lower|, idx, to, j);
    FinishPage(p, s, bytes);
  }

  /** A completed chunk, seen from its page. */
  lemma FinishPage(p: Primitives, s: File, bytes: seq<Byte>)
    requires Inv(s) && Enabled(s, FinishOp(bytes, Some(|bytes|)))
    ensures
      var pos, t := s.pending.value.pos, Finish(p, s, bytes, |bytes|);
      var idx := pos / PAGE_SIZE;
      && t.cache.Keys == s.cache.Keys && t.cache[idx].uptodate == s.cache[idx].uptodate
      && t.cache[idx].data ==
         FillZeros(Spliced(s.cache[idx].data, pos % PAGE_SIZE, bytes), |t.lower|, idx, pos % PAGE_SIZE + |bytes|)
      && forall i | i in s.cache && i != idx :: t.cache[i] == s.cache[i]
  {
  }

  // ---------- coherence ----------

  /** Byte `j` of page `idx` is what the lower file holds there, if it reaches so
      far, unmasked with a key. */
  ghost predicate Agrees(p: Primitives, key: Option<Key>, idx: nat, data: PageData, lower: seq<Byte>, j: nat)
    requires j < PAGE_SIZE
  {
    Start(idx) + j < |lower| ==> data[j] == lower[Start(idx) + j].Xor(PageMask(p, key, j))
  }

  /** A cached page agrees with the lower file decrypted under `k`. */
  ghost predicate CoherentAt(p: Primitives, s: File, k: Key, idx: nat, j: nat)
    requires idx in s.cache && j < PAGE_SIZE
  {
    Agrees(p, Some(k), idx, s.cache[idx].data, s.lower, j)
  }

  /** The lower file after the first bytes of a page are stored, masked. */
  ghost predicate StoresMasked(p: Primitives, key: Option<Key>, page: PageData, out: seq<Byte>) {
    |out| <= PAGE_SIZE && forall i :: 0 <= i < |out| ==> out[i] == page[i].Xor(PageMask(p, key, i))
  }

  /** What that does to the lower file. */
  lemma StoredLower(lower: seq<Byte>, out: seq<Byte>, idx: nat)
    requires out != [] || Start(idx) <= |lower|
    ensures
      var l := WriteAt(lower, Start(idx), out, ZERO);
      && |l| == Max(|lower|, Start(idx) + |out|)
      && (forall i :: 0 <= i < |lower| && !(Start(idx) <= i < Start(idx) + |out|) ==> l[i] == lower[i])
      && (forall j :: 0 <= j < |out| ==> l[Start(idx) + j] == out[j])
  {
  }

  /** And to position `j` of the page, whose tail is then zeroed. */
  lemma StoredAgrees(p: Primitives, key: Option<Key>, page: PageData, out: seq<Byte>, idx: nat, to: nat,
                     before: seq<Byte>, after: seq<Byte>, done: PageData, other: Option<Key>, j: nat)
    requires StoresMasked(p, key, page, out) && |out| <= to <= PAGE_SIZE && j < PAGE_SIZE
    requires out != [] || Start(idx) <= |before|
    requires after == WriteAt(before, Start(idx), out, ZERO) && done == FillZeros(page, |after|, idx, to)
    ensures if j < |out| then Start(idx) + j < |after| && Agrees(p, key, idx, done, after, j)
            else Agrees(p, other, idx, done, after, j) <==> Agrees(p, other, idx, page, before, j)
  {
    StoredLower(before, out, idx);
    FillZerosExact(page, |after|, idx, to, j);
    XorCancels(page[j], PageMask(p, key, j));
  }

  lemma ChunkStoresMasked(p: Primitives, s: File, bytes: seq<Byte>)
    requires InFlight(s) && s.pending.value.pos % PAGE_SIZE + |bytes| <= PAGE_SIZE
    requires s.key.Some? || s.pending.value.pos % PAGE_SIZE == 0
    ensures
      var idx, from := s.pending.value.pos / PAGE_SIZE, s.pending.value.pos % PAGE_SIZE;
      StoresMasked(p, s.key, Spliced(s.cache[idx].data, from, bytes), Outgoing(p, CopyIn(s, bytes), |bytes|))
  {
    forall j | 0 <= j < |bytes| {
      OutgoingMasked(p, s, bytes, j);
    }
  }

  /** Below, a chunk changes only [page start, page start + copied). */
  lemma ChunkLower(p: Primitives, s: File, bytes: seq<Byte>)
    requires Inv(s) && Enabled(s, FinishOp(bytes, Some(|bytes|)))
    requires bytes != [] || Start(s.pending.value.pos / PAGE_SIZE) <= |s.lower|
    ensures
      var idx, t := s.pending.value.pos / PAGE_SIZE, Finish(p, s, bytes, |bytes|);
      && |t.lower| == Max(|s.lower|, Start(idx) + |bytes|)
      && forall i :: 0 <= i < |s.lower| && !(Start(idx) <= i < Start(idx) + |bytes|) ==> t.lower[i] == s.lower[i]
  {
    FinishEffect(p, s, bytes);
    StoredLower(s.lower, Outgoing(p, CopyIn(s, bytes), |bytes|), s.pending.value.pos / PAGE_SIZE);
  }

  /** In the page, at any offset, past a hole or not, a position below `copied`
      agrees under the current key, and any other agrees under a key iff what
      the page now holds there agreed with what the lower file held. */
  lemma ChunkAgrees(p: Primitives, s: File, bytes: seq<Byte>, key: Option<Key>, j: nat)
    requires Inv(s) && Enabled(s, FinishOp(bytes, Some(|bytes|))) && j < PAGE_SIZE
    requires s.key.Some? || s.pending.value.pos % PAGE_SIZE == 0
    requires bytes != [] || Start(s.pending.value.pos / PAGE_SIZE) <= |s.lower|
    ensures
      var idx, from := s.pending.value.pos / PAGE_SIZE, s.pending.value.pos % PAGE_SIZE;
      var t := Finish(p, s, bytes, |bytes|);
      if j < |bytes| then Start(idx) + j < |t.lower| && Agrees(p, s.key, idx, t.cache[idx].data, t.lower, j)
      else Agrees(p, key, idx, t.cache[idx].data, t.lower, j) <==>
           Agrees(p, key, idx, Spliced(s.cache[idx].data, from, bytes), s.lower, j)
  {
    var idx, from := s.pending.value.pos / PAGE_SIZE, s.pending.value.pos % PAGE_SIZE;
    var page, t := Spliced(s.cache[idx].data, from, bytes), Finish(p, s, bytes, |bytes|);
    FinishEffect(p, s, bytes);
    FinishPage(p, s, bytes);
    ChunkStoresMasked(p, s, bytes);
    StoredAgrees(p, s.key, page, Outgoing(p, CopyIn(s, bytes), |bytes|), idx, from + |bytes|,
                 s.lower, t.lower, t.cache[idx].data, key, j);
  }

  /** So under one key a position is coherent iff it lies below `copied`, or the
      lower file already held what the page now shows. */
  lemma ChunkCoherence(p: Primitives, s: File, k: Key, bytes: seq<Byte>, j: nat)
    requires Inv(s) && Enabled(s, FinishOp(bytes, Some(|bytes|))) && s.key == Some(k) && bytes != [] && j < PAGE_SIZE
    ensures
      var pos, t := s.pending.value.pos, Finish(p, s, bytes, |bytes|);
      var idx, from := pos / PAGE_SIZE, pos % PAGE_SIZE;
      && |t.lower| == Max(|s.lower|, Start(idx) + |bytes|)
      && (forall i :: 0 <= i < |s.lower| && !(Start(idx) <= i < Start(idx) + |bytes|) ==> t.lower[i] == s.lower[i])
      && (CoherentAt(p, t, k, idx, j) <==>
          (j < |bytes| || Agrees(p, Some(k), idx, Spliced(s.cache[idx].data, from, bytes), s.lower, j)))
  {
    ChunkLower(p, s, bytes);
    ChunkAgrees(p, s, bytes, Some(k), j);
  }

  /** Where a page agreed, it agrees after the copy too unless a byte is misplaced. */
  lemma MisplacedIff(p: Primitives, s: File, bytes: seq<Byte>, key: Option<Key>, j: nat)
    requires Inv(s) && s.pending.Some? && |bytes| <= j < PAGE_SIZE
    requires Agrees(p, key, s.pending.value.pos / PAGE_SIZE, s.cache[s.pending.value.pos / PAGE_SIZE].data, s.lower, j)
    ensures
      var idx, from := s.pending.value.pos / PAGE_SIZE, s.pending.value.pos % PAGE_SIZE;
      Agrees(p, key, idx, Spliced(s.cache[idx].data, from, bytes), s.lower, j) <==> !Misplaced(s, bytes, j)
  {
  }

  /** So a coherent page loses coherence exactly where the chunk changed a byte
      at or past `copied`: never, when it starts at the page's start. */
  lemma CoherenceLost(p: Primitives, s: File, k: Key, bytes: seq<Byte>, j: nat)
    requires Inv(s) && Enabled(s, FinishOp(bytes, Some(|bytes|))) && s.key == Some(k) && bytes != [] && j < PAGE_SIZE
    requires CoherentAt(p, s, k, s.pending.value.pos / PAGE_SIZE, j)
    ensures
      var idx, t := s.pending.value.pos / PAGE_SIZE, Finish(p, s, bytes, |bytes|);
      !CoherentAt(p, t, k, idx, j) <==> Misplaced(s, bytes, j)
  {
    ChunkAgrees(p, s, bytes, Some(k), j);
    if |bytes| <= j {
      MisplacedIff(p, s, bytes, Some(k), j);
    }
  }

  // ---------- the keys behind the cache ----------

  type PageKeys = ks: seq<Option<Key>> | |ks| == PAGE_SIZE witness seq(PAGE_SIZE, _ => None)

  /** For each byte of a cached page, the key it was last read or written under. */
  type Seen = map<nat, PageKeys>

  predicate Cached(s: File, idx: nat) {
    idx in s.cache && s.cache[idx].uptodate
  }

  /** A write is filling the page, which was not up to date. */
  predicate Filling(s: File, idx: nat) {
    Writing(s, idx) && !s.pending.value.filled
  }

  /** readpage sets the key of a whole page; write_end that of the bytes it
      stores, and in a page it fills that of the rest, which is past the end. */
  function SeenNext(s: File, seen: Seen, op: Op): Seen
    requires Inv(s)
  {
    if !Enabled(s, op) then seen else
    match op
    case ReadOp(idx, _, Some(_), _) => if s.key.Some? then seen[idx := seq(PAGE_SIZE, _ => s.key)] else seen
    case FinishOp(bytes, Some(_)) =>
      var idx := s.pending.value.pos / PAGE_SIZE;
      var kept := s.pending.value.filled && idx in seen;
      seen[idx := seq(PAGE_SIZE, j requires 0 <= j < PAGE_SIZE =>
                        if kept && |bytes| <= j then seen[idx][j] else s.key)]
    case _ => seen
  }

  function SeenRun(p: Primitives, s: File, seen: Seen, ops: seq<Op>): Seen
    requires Inv(s)
    decreases |ops|
  {
    if ops == [] then seen else SeenRun(p, Next(p, s, ops[0]), SeenNext(s, seen, ops[0]), ops[1..])
  }

  ghost predicate KeyedAt(p: Primitives, s: File, seen: Seen, idx: nat, j: nat)
    requires idx in s.cache && j < PAGE_SIZE
  {
    idx in seen && Agrees(p, seen[idx][j], idx, s.cache[idx].data, s.lower, j)
  }

  /** Every up-to-date page agrees with the lower file, byte by byte, under the
      key the byte was last read or written under, but for a page being filled. */
  ghost predicate Keyed(p: Primitives, s: File, seen: Seen) {
    forall idx: nat, j: nat | Cached(s, idx) && !Filling(s, idx) && j < PAGE_SIZE :: KeyedAt(p, s, seen, idx, j)
  }

  /** A page decrypted from a complete lower read agrees. */
  lemma IncomingAgrees(p: Primitives, k: Key, lower: seq<Byte>, idx: nat, scratch: PageData, j: nat)
    requires j < PAGE_SIZE
    ensures Agrees(p, Some(k), idx, p.Crypt(k, Incoming(lower, idx, scratch, Available(lower, idx))), lower, j)
  {
  }

  lemma ReadKeyed(p: Primitives, s: File, seen: Seen, op: Op)
    requires Inv(s) && Enabled(s, op) && op.ReadOp? && KeptStep(s, op) && Keyed(p, s, seen)
    ensures Keyed(p, Apply(p, s, op), SeenNext(s, seen, op))
  {
    var t := Apply(p, s, op);
    forall idx: nat, j: nat | Cached(t, idx) && !Filling(t, idx) && j < PAGE_SIZE
      ensures KeyedAt(p, t, SeenNext(s, seen, op), idx, j)
    {
      if idx == op.idx {
        IncomingAgrees(p, s.key.value, s.lower, idx, op.scratch.value, j);
      } else {
        assert KeyedAt(p, s, seen, idx, j);
      }
    }
  }

  lemma ChunkKeyed(p: Primitives, s: File, seen: Seen, bytes: seq<Byte>, j: nat)
    requires Inv(s) && Enabled(s, FinishOp(bytes, Some(|bytes|))) && KeptStep(s, FinishOp(bytes, Some(|bytes|)))
    requires Keyed(p, s, seen) && j < PAGE_SIZE
    ensures KeyedAt(p, Finish(p, s, bytes, |bytes|), SeenNext(s, seen, FinishOp(bytes, Some(|bytes|))),
                    s.pending.value.pos / PAGE_SIZE, j)
  {
    var idx := s.pending.value.pos / PAGE_SIZE;
    if s.pending.value.filled {
      assert KeyedAt(p, s, seen, idx, j);
      ChunkAgrees(p, s, bytes, seen[idx][j], j);
      if |bytes| <= j {
        MisplacedIff(p, s, bytes, seen[idx][j], j);
      }
    } else {
      ChunkAgrees(p, s, bytes, s.key, j);
    }
  }

  lemma FinishKeyed(p: Primitives, s: File, seen: Seen, bytes: seq<Byte>)
    requires Inv(s) && Enabled(s, FinishOp(bytes, Some(|bytes|))) && KeptStep(s, FinishOp(bytes, Some(|bytes|)))
    requires Keyed(p, s, seen)
    ensures Keyed(p, Finish(p, s, bytes, |bytes|), SeenNext(s, seen, FinishOp(bytes, Some(|bytes|))))
  {
    var here, t := s.pending.value.pos / PAGE_SIZE, Finish(p, s, bytes, |bytes|);
    FinishEffect(p, s, bytes);
    FinishPage(p, s, bytes);
    ChunkLower(p, s, bytes);
    forall idx: nat, j: nat | Cached(t, idx) && !Filling(t, idx) && j < PAGE_SIZE
      ensures KeyedAt(p, t, SeenNext(s, seen, FinishOp(bytes, Some(|bytes|))), idx, j)
    {
      if idx == here {
        ChunkKeyed(p, s, seen, bytes, j);
      } else {
        assert KeyedAt(p, s, seen, idx, j);
        assert Start(idx + 1) <= Start(here) || Start(here + 1) <= Start(idx);
      }
    }
  }

  lemma TruncateKeyed(p: Primitives, s: File, seen: Seen, op: Op)
    requires Inv(s) && Enabled(s, op) && op.TruncateOp? && KeptStep(s, op) && Keyed(p, s, seen)
    ensures Keyed(p, Apply(p, s, op), seen)
  {
    var t := Apply(p, s, op);
    forall idx: nat, j: nat | Cached(t, idx) && !Filling(t, idx) && j < PAGE_SIZE
      ensures KeyedAt(p, t, seen, idx, j)
    {
      assert KeyedAt(p, s, seen, idx, j);
    }
  }

  /** A step that leaves the lower file alone, and each page it leaves up to
      date as it was, except the one a write_begin is filling. */
  lemma QuietKeyed(p: Primitives, s: File, t: File, seen: Seen)
    requires Keyed(p, s, seen) && t.lower == s.lower
    requires forall idx: nat | Cached(t, idx) && !Filling(t, idx) ::
               Cached(s, idx) && !Filling(s, idx) && s.cache[idx].data == t.cache[idx].data
    ensures Keyed(p, t, seen)
  {
    forall idx: nat, j: nat | Cached(t, idx) && !Filling(t, idx) && j < PAGE_SIZE
      ensures KeyedAt(p, t, seen, idx, j)
    {
      assert KeyedAt(p, s, seen, idx, j);
    }
  }

  lemma StepKeyed(p: Primitives, s: File, seen: Seen, op: Op)
    requires Inv(s) && Enabled(s, op) && KeptStep(s, op) && Keyed(p, s, seen)
    ensures Keyed(p, Apply(p, s, op), SeenNext(s, seen, op))
  {
    if op.FinishOp? {
      FinishKeyed(p, s, seen, op.bytes);
    } else if op.ReadOp? {
      ReadKeyed(p, s, seen, op);
    } else if op.TruncateOp? {
      TruncateKeyed(p, s, seen, op);
    } else {
      QuietKeyed(p, s, Apply(p, s, op), seen);
    }
  }

  /** Over every run whose writes, at any offsets, keep their pages in step, with
      keys changed at will, the cache stays the lower file under the keys its
      bytes were last read or written under. */
  lemma {:induction false} RunKeyed(p: Primitives, s: File, seen: Seen, ops: seq<Op>)
    requires Inv(s) && Keyed(p, s, seen) && Follows(p, Kept, s, ops)
    ensures Keyed(p, Run(p, s, ops), SeenRun(p, s, seen, ops))
    decreases |ops|
  {
    if ops != [] {
      if Enabled(s, ops[0]) {
        StepKeyed(p, s, seen, ops[0]);
      }
      RunKeyed(p, Next(p, s, ops[0]), SeenNext(s, seen, ops[0]), ops[1..]);
    }
  }

  // ---------- one key ----------

  /** Every up-to-date page agrees with the decrypted lower file below its end,
      but for a page being filled by a partial write. */
  ghost predicate Coherent(p: Primitives, s: File, k: Key) {
    forall idx: nat, j: nat | Cached(s, idx) && !Filling(s, idx) && j < PAGE_SIZE :: CoherentAt(p, s, k, idx, j)
  }

  /** The only key there is, and a write has it. */
  predicate OnlyKey(s: File, k: Key) {
    (s.key.Some? ==> s.key == Some(k)) && (s.pending.Some? ==> s.key.Some?)
  }

  predicate AllSeen(seen: Seen, k: Key) {
    forall idx | idx in seen :: seen[idx] == seq(PAGE_SIZE, _ => Some(k))
  }

  lemma OnlyKeyStep(p: Primitives, s: File, k: Key, op: Op)
    requires Inv(s) && Enabled(s, op) && Allows(p, OneKey(k), s, op) && OnlyKey(s, k)
    ensures OnlyKey(Apply(p, s, op), k)
  {
  }

  lemma AllSeenStep(s: File, seen: Seen, k: Key, op: Op)
    requires Inv(s) && OnlyKey(s, k) && AllSeen(seen, k)
    ensures AllSeen(SeenNext(s, seen, op), k)
  {
    if op.FinishOp? && Enabled(s, op) && op.w.Some? {
      var idx := s.pending.value.pos / PAGE_SIZE;
      assert SeenNext(s, seen, op)[idx] == seq(PAGE_SIZE, _ => Some(k));
    }
  }

  lemma {:induction false} AllSeenRun(p: Primitives, s: File, seen: Seen, k: Key, ops: seq<Op>)
    requires Inv(s) && OnlyKey(s, k) && AllSeen(seen, k) && Follows(p, OneKey(k), s, ops)
    ensures AllSeen(SeenRun(p, s, seen, ops), k) && OnlyKey(Run(p, s, ops), k)
    decreases |ops|
  {
    if ops != [] {
      if Enabled(s, ops[0]) {
        OnlyKeyStep(p, s, k, ops[0]);
      }
      AllSeenStep(s, seen, k, ops[0]);
      AllSeenRun(p, Next(p, s, ops[0]), SeenNext(s, seen, ops[0]), k, ops[1..]);
    }
  }

  function SeenUnder(s: File, k: Key): Seen {
    map idx | idx in s.cache :: seq(PAGE_SIZE, _ => Some(k))
  }

  /** Under one key every run whose writes keep their pages in step, at any
      offsets, keeps the whole cache coherent. */
  lemma OneKeyRun(p: Primitives, s: File, k: Key, ops: seq<Op>)
    requires Inv(s) && Coherent(p, s, k) && OnlyKey(s, k) && Follows(p, Kept, s, ops) && Follows(p, OneKey(k), s, ops)
    ensures Coherent(p, Run(p, s, ops), k)
  {
    var seen := SeenUnder(s, k);
    assert Keyed(p, s, seen) by {
      forall idx: nat, j: nat | Cached(s, idx) && !Filling(s, idx) && j < PAGE_SIZE
        ensures KeyedAt(p, s, seen, idx, j)
      {
        assert CoherentAt(p, s, k, idx, j);
      }
    }
    RunKeyed(p, s, seen, ops);
    AllSeenRun(p, s, seen, k, ops);
    KeyedIsCoherent(p, Run(p, s, ops), SeenRun(p, s, seen, ops), k);
  }

  lemma KeyedIsCoherent(p: Primitives, s: File, seen: Seen, k: Key)
    requires Keyed(p, s, seen) && AllSeen(seen, k)
    ensures Coherent(p, s, k)
  {
    forall idx: nat, j: nat | Cached(s, idx) && !Filling(s, idx) && j < PAGE_SIZE
      ensures CoherentAt(p, s, k, idx, j)
    {
      assert KeyedAt(p, s, seen, idx, j);
    }
  }

  // ---------- what a reader gets ----------

  /** What a reader of the mapping is given for byte `i`: from the cached page if
      it is up to date, else from the page as readpage leaves it. The reader gets
      nothing if that is still not up to date, and waits for ever for a page
      that stays locked. */
  function ReadByte(p: Primitives, s: File, i: nat, blank: PageData, scratch: PageData): Option<Byte>
    requires Inv(s)
  {
    var idx := i / PAGE_SIZE;
    if Cached(s, idx) then Some(s.cache[idx].data[i % PAGE_SIZE])
    else if !s.isOpen || !Unlocked(s, idx) then None
    else
      var pg := ReadPage(p, s, idx, blank, Some(scratch), Available(s.lower, idx)).0.cache[idx];
      if pg.uptodate then Some(pg.data[i % PAGE_SIZE]) else None
  }

  /** The key under which a reader is given byte `i`, if it is given one: for a
      cached page that behind the byte, else the current key. */
  function ReaderKey(s: File, seen: Seen, i: nat): Option<Option<Key>> {
    var idx := i / PAGE_SIZE;
    if Cached(s, idx) then Some(if idx in seen then seen[idx][i % PAGE_SIZE] else None)
    else if s.isOpen && idx !in Stuck(s) && s.key.Some? then Some(s.key)
    else None
  }

  /** A page not up to date reads as the lower file decrypts, unless it is stuck. */
  lemma ReadsBelow(p: Primitives, s: File, k: Key, i: nat, blank: PageData, scratch: PageData)
    requires Inv(s) && s.isOpen && s.key == Some(k) && i < |s.lower| && !Cached(s, i / PAGE_SIZE)
    ensures ReadByte(p, s, i, blank, scratch) ==
            if i / PAGE_SIZE in Stuck(s) then None else Some(s.lower[i].Xor(p.Keystream(k, i % PAGE_SIZE)))
  {
    IncomingAgrees(p, k, s.lower, i / PAGE_SIZE, scratch, i % PAGE_SIZE);
  }

  /** What a reader gets is the lower byte unmasked with that key, and with no other. */
  lemma ReadsUnderKey(p: Primitives, s: File, seen: Seen, i: nat, blank: PageData, scratch: PageData)
    requires Inv(s) && i < |s.lower| && !Filling(s, i / PAGE_SIZE) && (Cached(s, i / PAGE_SIZE) ==> Keyed(p, s, seen))
    ensures
      var key := ReaderKey(s, seen, i);
      ReadByte(p, s, i, blank, scratch) == if key.None? then None else Some(s.lower[i].Xor(Mask(p, key.value, i)))
  {
    var idx, j := i / PAGE_SIZE, i % PAGE_SIZE;
    assert Start(idx) + j == i;
    if Cached(s, idx) {
      assert KeyedAt(p, s, seen, idx, j);
    } else if s.isOpen && s.key.Some? {
      ReadsBelow(p, s, s.key.value, i, blank, scratch);
    }
  }

  /** After any aligned run with keys changed at will, a reader gets the plain
      file's byte iff the key it is read under masks the position as the key it
      was written under did. */
  lemma ReadBackIff(p: Primitives, s: File, ref: Reference, seen: Seen, i: nat, blank: PageData, scratch: PageData)
    requires Inv(s) && Refines(p, s, ref) && i < s.size
    requires !Filling(s, i / PAGE_SIZE) && (Cached(s, i / PAGE_SIZE) ==> Keyed(p, s, seen))
    ensures
      var key := ReaderKey(s, seen, i);
      ReadByte(p, s, i, blank, scratch) == Some(ref.bytes[i]) <==>
      key.Some? && Mask(p, key.value, i) == Mask(p, ref.tags[i], i)
  {
    ReadsUnderKey(p, s, seen, i, blank, scratch);
    if key :| ReaderKey(s, seen, i) == Some(key) {
      XorRecoversIff(ref.bytes[i], Mask(p, ref.tags[i], i), Mask(p, key, i));
    }
  }

  /** The lower file, decrypted throughout under one key. */
  function ClearFile(p: Primitives, k: Key, lower: seq<Byte>): (r: seq<Byte>)
    ensures |r| == |lower|
  {
    seq(|lower|, i requires 0 <= i < |lower| => lower[i].Xor(p.Keystream(k, i % PAGE_SIZE)))
  }

  /** The plain file that a lower file is under one key. */
  function PlainOf(p: Primitives, k: Key, contents: seq<Byte>): Reference {
    Reference(ClearFile(p, k, contents), seq(|contents|, _ => Some(k)))
  }

  lemma FreshRefines(p: Primitives, k: Key, contents: seq<Byte>)
    ensures Inv(Fresh(contents)) && Refines(p, Fresh(contents), PlainOf(p, k, contents))
    ensures Keyed(p, Fresh(contents), map[])
  {
    var clear := ClearFile(p, k, contents);
    forall i | 0 <= i < |contents|
      ensures contents[i] == clear[i].Xor(p.Keystream(k, i % PAGE_SIZE))
    {
      XorCancels(contents[i], p.Keystream(k, i % PAGE_SIZE));
    }
  }

  predicate AllTags(ref: Reference, k: Key) {
    forall i :: 0 <= i < |ref.tags| ==> ref.tags[i] == Some(k)
  }

  lemma {:induction false} AllTagsRun(p: Primitives, s: File, ref: Reference, k: Key, ops: seq<Op>)
    requires Inv(s) && Refines(p, s, ref) && OnlyKey(s, k) && AllTags(ref, k)
    requires Follows(p, Plain, s, ops) && Follows(p, OneKey(k), s, ops)
    ensures AllTags(RefRun(p, s, ref, ops), k)
    decreases |ops|
  {
    if ops != [] {
      if Enabled(s, ops[0]) {
        StepRefines(p, s, ref, ops[0]);
        OnlyKeyStep(p, s, k, ops[0]);
      }
      assert AllTags(RefNext(s, ref, ops[0]), k);
      AllTagsRun(p, Next(p, s, ops[0]), RefNext(s, ref, ops[0]), k, ops[1..]);
    }
  }

  /** The headline: under one key any file is, to its readers, a plain file. From
      whatever the lower file holds, after every allowed run, a byte below the
      end reads as the plain file's byte, whatever was dropped, re-read, written
      back, evicted or looked up again in between, iff no reader asked for its
      page while no key was set, which locks it for good, and there is a key
      now, or the page is cached. */
  lemma ReadsAsPlainFile(p: Primitives, k: Key, contents: seq<Byte>, ops: seq<Op>, i: nat, blank: PageData,
                         scratch: PageData)
    requires Follows(p, Plain, Fresh(contents), ops) && Follows(p, Kept, Fresh(contents), ops)
    requires Follows(p, OneKey(k), Fresh(contents), ops)
    requires
      var s := Run(p, Fresh(contents), ops);
      s.isOpen && !Filling(s, i / PAGE_SIZE) && i < s.size
    ensures
      var s, ref := Run(p, Fresh(contents), ops), RefRun(p, Fresh(contents), PlainOf(p, k, contents), ops);
      && s.size == |ref.bytes|
      && (ReadByte(p, s, i, blank, scratch) == Some(ref.bytes[i]) <==>
          i / PAGE_SIZE !in KeylessReads(p, Fresh(contents), ops) && (s.key.Some? || Cached(s, i / PAGE_SIZE)))
  {
    var f, plain := Fresh(contents), PlainOf(p, k, contents);
    FreshRefines(p, k, contents);
    RunRefines(p, f, plain, ops);
    RunKeyed(p, f, map[], ops);
    AllSeenRun(p, f, map[], k, ops);
    AllTagsRun(p, f, plain, k, ops);
    StuckExactly(p, f, ops);
    OneKeyReads(p, Run(p, f, ops), RefRun(p, f, plain, ops), SeenRun(p, f, map[], ops), k, i, blank, scratch);
  }

  lemma OneKeyReads(p: Primitives, s: File, ref: Reference, seen: Seen, k: Key, i: nat, blank: PageData,
                    scratch: PageData)
    requires Inv(s) && Refines(p, s, ref) && Keyed(p, s, seen) && AllSeen(seen, k) && AllTags(ref, k) && OnlyKey(s, k)
    requires s.isOpen && !Filling(s, i / PAGE_SIZE) && i < s.size
    ensures ReadByte(p, s, i, blank, scratch) == Some(ref.bytes[i]) <==>
            i / PAGE_SIZE !in Stuck(s) && (s.key.Some? || Cached(s, i / PAGE_SIZE))
  {
    ReadBackIff(p, s, ref, seen, i, blank, scratch);
    if Cached(s, i / PAGE_SIZE) {
      assert KeyedAt(p, s, seen, i / PAGE_SIZE, i % PAGE_SIZE);
    }
  }

  /** A page locked by a reader without a key answers no reader, whatever follows. */
  lemma StuckForever(p: Primitives, s: File, ops: seq<Op>, i: nat, blank: PageData, scratch: PageData)
    requires Inv(s) && i / PAGE_SIZE in Stuck(s)
    ensures ReadByte(p, Run(p, s, ops), i, blank, scratch) == None
  {
    StuckExactly(p, s, ops);
    assert i / PAGE_SIZE in Stuck(Run(p, s, ops));
  }

  /** It happens: open a file and read it before the key is set, and the page
      cannot be read after it is. */
  lemma ReadBeforeKeyHangs(p: Primitives, contents: seq<Byte>, str: string, len: nat, ops: seq<Op>, blank: PageData,
                           scratch: PageData)
    requires str != "0"
    ensures
      var early := [OpenOp(Opens), ReadOp(0, blank, Some(scratch), Available(contents, 0)), SetKeyOp(str, len)];
      var s := Run(p, Fresh(contents), early);
      && Follows(p, Plain, Fresh(contents), early) && Follows(p, Kept, Fresh(contents), early)
      && Follows(p, OneKey(p.md5(str, len)), Fresh(contents), early)
      && s.isOpen && s.key.Some? && s.pending.None? && s.size == |contents|
      && ReadByte(p, Run(p, s, ops), 0, blank, scratch) == None
  {
    var a, b, c := OpenOp(Opens), ReadOp(0, blank, Some(scratch), Available(contents, 0)), SetKeyOp(str, len);
    var s1 := Next(p, Fresh(contents), a);
    var s2 := Next(p, s1, b);
    var s3 := Next(p, s2, c);
    forall pol | pol in [Plain, Kept, OneKey(p.md5(str, len))]
      ensures Follows(p, pol, Fresh(contents), [a, b, c]) && Run(p, Fresh(contents), [a, b, c]) == s3
    {
      RunCons(p, s2, pol, c, []);
      RunCons(p, s1, pol, b, [c] + []);
      RunCons(p, Fresh(contents), pol, a, [b] + ([c] + []));
      assert [a, b, c] == [a] + ([b] + ([c] + []));
    }
    assert Plain in [Plain, Kept, OneKey(p.md5(str, len))];
    assert 0 in Stuck(s3);
    StuckForever(p, s3, ops, 0, blank, scratch);
  }

  /** Dropping a page and reading it again gives back every byte below the end. */
  lemma DropThenRead(p: Primitives, s: File, k: Key, idx: nat, j: nat, blank: PageData, scratch: PageData)
    requires Inv(s) && s.key == Some(k) && s.isOpen && j < PAGE_SIZE && Enabled(s, DropOp(idx)) && s.cache[idx].uptodate
    requires CoherentAt(p, s, k, idx, j) && Start(idx) + j < |s.lower|
    ensures ReadByte(p, Apply(p, s, DropOp(idx)), Start(idx) + j, blank, scratch) == Some(s.cache[idx].data[j])
  {
  }

  // ---------- reading back under another key ----------

  /** So after any aligned run, from any file, setting a key string again
      recovers a byte that was last written under it iff nobody asked for its
      page while no key was set and, if the page is cached, the key behind the
      byte masks it as the right one does. */
  lemma SameStringRecovers(p: Primitives, s: File, ref: Reference, seen: Seen, ops: seq<Op>, str: string, len: nat,
                           i: nat, blank: PageData, scratch: PageData)
    requires Inv(s) && Refines(p, s, ref) && Follows(p, Plain, s, ops) && str != "0"
    requires
      var t, idx := Run(p, s, ops), i / PAGE_SIZE;
      && t.isOpen && i < t.size && !Filling(t, idx)
      && (Cached(t, idx) ==> Keyed(p, s, seen) && Follows(p, Kept, s, ops))
    ensures
      var t, r, keys, idx := Run(p, s, ops), RefRun(p, s, ref, ops), SeenRun(p, s, seen, ops), i / PAGE_SIZE;
      && i < |r.tags| && i < |r.bytes|
      && (Cached(t, idx) ==> idx in keys)
      && (r.tags[i] == Some(p.md5(str, len)) ==>
            (ReadByte(p, SetKey(p, t, str, len), i, blank, scratch) == Some(r.bytes[i]) <==>
             && idx !in Stuck(s) + KeylessReads(p, s, ops)
             && (Cached(t, idx) ==> Mask(p, keys[idx][i % PAGE_SIZE], i) == Mask(p, r.tags[i], i))))
  {
    var t, keys := Run(p, s, ops), SeenRun(p, s, seen, ops);
    RunRefines(p, s, ref, ops);
    StuckExactly(p, s, ops);
    if Cached(t, i / PAGE_SIZE) {
      RunKeyed(p, s, seen, ops);
      assert KeyedAt(p, t, keys, i / PAGE_SIZE, i % PAGE_SIZE);
    }
    var u := SetKey(p, t, str, len);
    assert Stuck(u) == Stuck(t);
    if Cached(u, i / PAGE_SIZE) {
      QuietKeyed(p, t, u, keys);
    }
    ReadBackIff(p, u, RefRun(p, s, ref, ops), keys, i, blank, scratch);
  }

  /** An operation that may change or drop a cached page. */
  predicate Touches(s: File, op: Op, idx: nat) {
    op == DropOp(idx) || op.TruncateOp? || op.EvictOp? || (op.FinishOp? && Writing(s, idx))
  }

  predicate Untouched(p: Primitives, s: File, ops: seq<Op>, idx: nat)
    requires Inv(s)
    decreases |ops|
  {
    ops == [] || (!Touches(s, ops[0], idx) && Untouched(p, Next(p, s, ops[0]), ops[1..], idx))
  }

  /** A cached page goes on being read as it is, whatever key is set or cleared. */
  lemma {:induction false} CachedOutlivesKey(p: Primitives, s: File, ops: seq<Op>, i: nat, blank: PageData,
                                             scratch: PageData)
    requires Inv(s) && Cached(s, i / PAGE_SIZE) && Untouched(p, s, ops, i / PAGE_SIZE)
    ensures ReadByte(p, Run(p, s, ops), i, blank, scratch) == ReadByte(p, s, i, blank, scratch) != None
    decreases |ops|
  {
    if ops != [] {
      UntouchedStep(p, s, ops[0], i / PAGE_SIZE);
      CachedOutlivesKey(p, Next(p, s, ops[0]), ops[1..], i, blank, scratch);
    }
  }

  lemma UntouchedStep(p: Primitives, s: File, op: Op, idx: nat)
    requires Inv(s) && Cached(s, idx) && !Touches(s, op, idx)
    ensures Cached(Next(p, s, op), idx) && Next(p, s, op).cache[idx].data == s.cache[idx].data
  {
  }

  /** Set a wrong key, read a page, set the right key again. */
  function Detour(s: File, wrong: string, n: nat, right: string, m: nat, idx: nat, blank: PageData,
                  scratch: PageData): seq<Op> {
    [SetKeyOp(wrong, n), ReadOp(idx, blank, Some(scratch), Available(s.lower, idx)), SetKeyOp(right, m)]
  }

  lemma DetourRun(p: Primitives, s: File, pol: Policy, wrong: string, n: nat, right: string, m: nat, idx: nat,
                  blank: PageData, scratch: PageData)
    requires Inv(s) && s.isOpen && !Cached(s, idx) && Unlocked(s, idx) && wrong != "0" && pol in {Plain, Kept}
    ensures
      var d := Detour(s, wrong, n, right, m, idx, blank, scratch);
      var read := ReadPage(p, SetKey(p, s, wrong, n), idx, blank, Some(scratch), Available(s.lower, idx)).0;
      && Run(p, s, d) == SetKey(p, read, right, m)
      && Follows(p, pol, s, d) && KeylessReads(p, s, d) == {}
  {
    var d := Detour(s, wrong, n, right, m, idx, blank, scratch);
    var s1 := Next(p, s, d[0]);
    var s2 := Next(p, s1, d[1]);
    RunCons(p, s2, pol, d[2], []);
    RunCons(p, s1, pol, d[1], [d[2]] + []);
    RunCons(p, s, pol, d[0], [d[1]] + ([d[2]] + []));
    assert d == [d[0]] + ([d[1]] + ([d[2]] + []));
  }

  /** Reading a page under a wrong key keeps the right one from recovering it: for
      as long as the page is not touched the reader gets the byte iff the wrong
      key masks it as the right one does. */
  lemma WrongKeyStays(p: Primitives, s: File, ref: Reference, wrong: string, n: nat, right: string, m: nat,
                      ops: seq<Op>, i: nat, blank: PageData, scratch: PageData)
    requires Inv(s) && Refines(p, s, ref) && s.isOpen && i < s.size && wrong != "0"
    requires !Cached(s, i / PAGE_SIZE) && Unlocked(s, i / PAGE_SIZE) && ref.tags[i] == Some(p.md5(right, m))
    requires Untouched(p, Run(p, s, Detour(s, wrong, n, right, m, i / PAGE_SIZE, blank, scratch)), ops, i / PAGE_SIZE)
    ensures
      var d := Detour(s, wrong, n, right, m, i / PAGE_SIZE, blank, scratch);
      && Follows(p, Plain, s, d) && Follows(p, Kept, s, d) && KeylessReads(p, s, d) == {}
      && (ReadByte(p, Run(p, Run(p, s, d), ops), i, blank, scratch) == Some(ref.bytes[i]) <==>
          p.Keystream(p.md5(wrong, n), i % PAGE_SIZE) == p.Keystream(p.md5(right, m), i % PAGE_SIZE))
  {
    var idx, j, key := i / PAGE_SIZE, i % PAGE_SIZE, p.md5(wrong, n);
    assert Start(idx) + j == i;
    DetourRun(p, s, Plain, wrong, n, right, m, idx, blank, scratch);
    DetourRun(p, s, Kept, wrong, n, right, m, idx, blank, scratch);
    IncomingAgrees(p, key, s.lower, idx, scratch, j);
    XorRecoversIff(ref.bytes[i], Mask(p, ref.tags[i], i), Mask(p, Some(key), i));
    CachedOutlivesKey(p, Run(p, s, Detour(s, wrong, n, right, m, idx, blank, scratch)), ops, i, blank, scratch);
  }
}
