/** One file under the mmap operations: the cleartext page cache on top, the
    ciphertext of the lower file below, and what each address-space operation
    of mmap.c does to them. The functions are total over every offset, hole and
    lower I/O outcome; nothing is assumed here about how they are used. */
module PageCache {
  import opened Common
  import opened PageCipher

  /** A page of the upper mapping; `refs` counts references beyond the cache's own. */
  datatype Page = Page(data: PageData, uptodate: bool, locked: bool, refs: nat)

  /** A write between write_begin and write_end. `filled` remembers whether the
      page was already up to date when write_begin found it. */
  datatype Pending = Pending(pos: nat, len: nat, filled: bool)

  /** file->private_data: freed memory may leave the pointer behind. */
  datatype Private = Null | Live | Freed

  datatype File = File(
    lower: seq<Byte>,          // contents of the lower file
    size: nat,                 // i_size of the upper inode
    cache: map<nat, Page>,
    key: Option<Key>,          // keyVal of the superblock
    pending: Option<Pending>,
    live: bool,                // the upper inode has not been evicted
    isOpen: bool,              // wrapfs_open succeeded and release has not run
    priv: Private,             // private data of the last file opened
    lowerFile: bool,           // WRAPFS_F(file)->lower_file is set
    lowerInode: bool)          // WRAPFS_I(inode)->lower_inode is set

  function Start(idx: nat): nat {
    idx * PAGE_SIZE
  }

  /** An inode as wrapfs_iget makes it over a lower file, on a mount with no key yet. */
  function Fresh(contents: seq<Byte>): File {
    File(contents, |contents|, map[], None, None, true, false, Null, false, true)
  }

  // ---------- page locks ----------

  /** lock_page on a page that is locked would wait. */
  function Lock(pg: Page): Page
    requires !pg.locked
  {
    pg.(locked := true)
  }

  /** unlock_page on a page that is not locked is a bug. */
  function Unlock(pg: Page): Page
    requires pg.locked
  {
    pg.(locked := false)
  }

  /** page_cache_release, of a reference that is held. */
  function PutPage(pg: Page): Page
    requires pg.refs > 0
  {
    pg.(refs := pg.refs - 1)
  }

  predicate Unlocked(s: File, idx: nat) {
    idx in s.cache ==> !s.cache[idx].locked
  }

  /** The VFS locks a cached page before it calls an operation on it. */
  function LockPage(s: File, idx: nat): File
    requires idx in s.cache && Unlocked(s, idx)
  {
    s.(cache := s.cache[idx := Lock(s.cache[idx])])
  }

  // ---------- bytes ----------

  /** What writing `b` at `off` does to a plain file: bytes between the old end
      and `off` become `pad`. Writing nothing changes nothing. */
  function WriteAt<T>(f: seq<T>, off: nat, b: seq<T>, pad: T): (r: seq<T>)
    ensures b == [] ==> r == f
    ensures b != [] ==> |r| == Max(|f|, off + |b|)
    ensures b != [] ==> forall i :: 0 <= i < |r| ==>
              r[i] == if off <= i < off + |b| then b[i - off] else if i < |f| then f[i] else pad
  {
    if b == [] then f
    else
      var padded := f + seq(Max(0, off - |f|), _ => pad);
      padded[..off] + b + (if off + |b| < |padded| then padded[off + |b|..] else [])
  }

  function Resize(f: seq<Byte>, n: nat): (r: seq<Byte>)
    ensures |r| == n
    ensures forall i :: 0 <= i < n ==> r[i] == if i < |f| then f[i] else ZERO
  {
    if n <= |f| then f[..n] else f + seq(n - |f|, _ => ZERO)
  }

  function Zeroed(d: PageData, from: nat, to: nat): PageData {
    seq(PAGE_SIZE, j requires 0 <= j < PAGE_SIZE => if from <= j < to then ZERO else d[j])
  }

  function Spliced(d: PageData, from: nat, b: seq<Byte>): PageData {
    seq(PAGE_SIZE, j requires 0 <= j < PAGE_SIZE => if from <= j < from + |b| then b[j - from] else d[j])
  }

  // ---------- write_begin ----------

  function Grabbed(s: File, idx: nat, blank: Option<PageData>): Option<Page> {
    if idx in s.cache then Some(s.cache[idx])
    else if blank.Some? then Some(Page(blank.value, false, false, 0))
    else None
  }

  /** wrapfs_write_begin. `blank` is the content of a newly allocated page. */
  function WriteBegin(s: File, pos: nat, len: nat, blank: Option<PageData>): (File, int)
    requires Unlocked(s, pos / PAGE_SIZE)
  {
    var idx, from := pos / PAGE_SIZE, pos % PAGE_SIZE;
    var grabbed := Grabbed(s, idx, blank);
    if s.key.None? then (s, -EPERM)
    else if grabbed.None? then (s, -ENOMEM)
    else
      var pg := grabbed.value;
      var data := if !pg.uptodate && len != PAGE_SIZE
                  then Zeroed(Zeroed(pg.data, 0, from), from + len, PAGE_SIZE) else pg.data;
      (s.(cache := s.cache[idx := Lock(pg).(data := data, uptodate := true, refs := pg.refs + 1)],
          pending := Some(Pending(pos, len, pg.uptodate))), 0)
  }

  // ---------- the copy and write_end ----------

  /** Between write_begin and write_end the page is locked and referenced. */
  ghost predicate InFlight(s: File) {
    && s.pending.Some? && s.pending.value.pos / PAGE_SIZE in s.cache
    && s.cache[s.pending.value.pos / PAGE_SIZE].locked && s.cache[s.pending.value.pos / PAGE_SIZE].refs > 0
  }

  /** The VFS copies user bytes into the locked page. */
  function CopyIn(s: File, bytes: seq<Byte>): (t: File)
    requires InFlight(s)
    ensures InFlight(t)
  {
    var idx, from := s.pending.value.pos / PAGE_SIZE, s.pending.value.pos % PAGE_SIZE;
    var pg := s.cache[idx];
    s.(cache := s.cache[idx := pg.(data := Spliced(pg.data, from, bytes))])
  }

  /** The bytes write_end hands to the lower file, always at the page's start:
      with a key the first `copied` ciphertext bytes of the page, without one
      the copied cleartext bytes themselves. */
  function Outgoing(p: Primitives, s: File, copied: nat): (r: seq<Byte>)
    requires InFlight(s) && s.pending.value.pos % PAGE_SIZE + copied <= PAGE_SIZE
    ensures |r| == copied
  {
    var from, data := s.pending.value.pos % PAGE_SIZE, s.cache[s.pending.value.pos / PAGE_SIZE].data;
    match s.key
    case Some(k) => p.Crypt(k, data)[..copied]
    case None => data[from..from + copied]
  }

  /** fill_zeros_to_end_of_page, on a page of a file whose i_size is `size`. */
  function FillZeros(d: PageData, size: nat, idx: nat, to: nat): PageData {
    if size / PAGE_SIZE != idx then d else Zeroed(d, Max(size % PAGE_SIZE, to), PAGE_SIZE)
  }

  /** wrapfs_write_end. `w` is the result of the lower write: an error, or how
      many of the `copied` bytes reached the lower file; None if no scratch page
      could be had for the ciphertext, which ends the call with 0. Every exit but
      the first unlocks and releases the page, once each. */
  function WriteEnd(p: Primitives, s: File, copied: nat, w: Option<int>): (File, int)
    requires InFlight(s) && s.pending.value.pos % PAGE_SIZE + copied <= PAGE_SIZE
    requires if w.Some? then w.value <= copied else s.key.Some?
  {
    if !s.lowerFile then (s.(pending := None), -EIO)
    else if w.None? then
      var idx := s.pending.value.pos / PAGE_SIZE;
      (s.(cache := s.cache[idx := PutPage(Unlock(s.cache[idx]))], pending := None), 0)
    else Stored(p, s, copied, w.value)
  }

  function Stored(p: Primitives, s: File, copied: nat, w: int): (File, int)
    requires InFlight(s) && s.pending.value.pos % PAGE_SIZE + copied <= PAGE_SIZE && w <= copied
  {
    var pos := s.pending.value.pos;
    var idx, to := pos / PAGE_SIZE, pos % PAGE_SIZE + copied;
    var lower := if w < 0 then s.lower else WriteAt(s.lower, Start(idx), Outgoing(p, s, copied)[..w], ZERO);
    var size := if w < 0 then s.size else |lower|;
    var pg := s.cache[idx];
    var done := PutPage(Unlock(pg.(data := FillZeros(pg.data, size, idx, to))));
    (s.(lower := lower, size := Max(size, pos + copied), cache := s.cache[idx := done], pending := None), copied)
  }

  // ---------- readpage, writepage, reclaim ----------

  /** What wrapfs_readpage finds in its scratch page after the lower read: `r`
      is an error or the number of bytes read, the rest is the scratch page's
      former content. */
  function Incoming(lower: seq<Byte>, idx: nat, scratch: PageData, r: int): PageData
    requires r <= PAGE_SIZE && (r > 0 ==> Start(idx) + r <= |lower|)
  {
    if r <= 0 then scratch else lower[Start(idx)..Start(idx) + r] + scratch[r..]
  }

  /** The page as the VFS locked it for readpage. */
  function LockedPage(s: File, idx: nat, blank: PageData): (pg: Page)
    requires Unlocked(s, idx)
    ensures pg.locked
  {
    Lock(if idx in s.cache then s.cache[idx] else Page(blank, false, false, 0))
  }

  /** How many bytes a complete lower read of page `idx` delivers. */
  function Available(lower: seq<Byte>, idx: nat): (n: nat)
    ensures n <= PAGE_SIZE && (n > 0 ==> Start(idx) + n <= |lower|)
    ensures n == PAGE_SIZE || |lower| <= Start(idx) + n
  {
    if |lower| <= Start(idx) then 0
    else if |lower| - Start(idx) < PAGE_SIZE then |lower| - Start(idx) else PAGE_SIZE
  }

  /** wrapfs_readpage. The result of the lower read is overwritten by that of
      the decryption; without a key the page is returned still locked, and every
      other exit unlocks it once. `scratch` is the page the ciphertext is read
      into, if one could be had. */
  function ReadPage(p: Primitives, s: File, idx: nat, blank: PageData, scratch: Option<PageData>, r: int): (File, int)
    requires r <= Available(s.lower, idx) && !s.priv.Freed? && Unlocked(s, idx)
  {
    var pg := LockedPage(s, idx, blank);
    match s.key
    case None => (s.(cache := s.cache[idx := pg]), -EPERM)
    case Some(k) =>
      if scratch.None? then
        (s.(cache := s.cache[idx := Unlock(pg.(uptodate := false))]), -ENOMEM)
      else if s.priv.Null? then
        (s.(cache := s.cache[idx := Unlock(pg.(uptodate := false))]), -ENOENT)
      else
        var clear := p.Crypt(k, Incoming(s.lower, idx, scratch.value, r));
        (s.(cache := s.cache[idx := Unlock(pg.(data := clear, uptodate := true))]), 0)
  }

  /** wrapfs_writepage, on a locked page: with the guard as written there is
      nothing to do but unlock it when the lower inode IS set, and a null
      dereference (None) when it is not. */
  function WritePage(s: File, idx: nat): (File, Option<int>)
    requires idx in s.cache && s.cache[idx].locked
  {
    if s.lowerInode then (s.(cache := s.cache[idx := Unlock(s.cache[idx])]), Some(0))
    else (s, None)
  }

  function DropPage(s: File, idx: nat): File {
    s.(cache := s.cache - {idx})
  }

  // ---------- truncation, the key, open and release ----------

  /** truncate_pagecache: whole pages at or past `n` go, the tail of a partial one is zeroed. */
  function TruncatedCache(cache: map<nat, Page>, n: nat): map<nat, Page> {
    map idx | idx in cache && Start(idx) < n ::
      if n < Start(idx + 1) then cache[idx].(data := Zeroed(cache[idx].data, n - Start(idx), PAGE_SIZE)) else cache[idx]
  }

  /** The ATTR_SIZE part of wrapfs_setattr: `sizeOk` is inode_newsize_ok,
      `lowerOk` whether notify_change on the lower dentry succeeds. */
  function Truncate(s: File, n: nat, sizeOk: bool, lowerOk: bool): File {
    if !sizeOk then s
    else
      var t := s.(size := n, cache := TruncatedCache(s.cache, n));
      if lowerOk then t.(lower := Resize(s.lower, n)) else t
  }

  /** The SETEKEY ioctl: the string "0" clears the key, any other sets its digest. */
  function SetKey(p: Primitives, s: File, str: string, len: nat): File {
    s.(key := if str == "0" then None else Some(p.md5(str, len)))
  }

  /** Where wrapfs_open stops. */
  datatype OpenOutcome = Unhashed | NoMemory | LowerFails(errno: int) | Opens

  /** wrapfs_open, on a new file; when the lower open fails its private data is
      freed and the pointer stays. */
  function Open(s: File, o: OpenOutcome): (File, int) {
    match o
    case Unhashed => (s.(priv := Null), -ENOENT)
    case NoMemory => (s.(priv := Null), -ENOMEM)
    case LowerFails(e) => (s.(priv := Freed), -e)
    case Opens => (s.(isOpen := true, priv := Live, lowerFile := true), 0)
  }

  function Release(s: File): File {
    s.(isOpen := false, priv := Freed, lowerFile := false)
  }

  function Evict(s: File): File {
    s.(cache := map[], live := false, lowerInode := false)
  }

  /** wrapfs_iget over the lower file of an evicted inode: the size comes from below. */
  function Iget(s: File): File {
    s.(live := true, lowerInode := true, size := |s.lower|)
  }
}
