/** The address-space operations of mmap.c as they run, each proved to have the
    effect that PageCache states. */
module Mmap {
  import opened Common
  import opened PageCipher
  import opened PageCache

  /** fill_zeros_to_end_of_page, on the data of page `idx` of a file of `size` bytes. */
  method FillZerosToEndOfPage(page: PageData, size: nat, idx: nat, to: nat) returns (rc: int, filled: PageData)
    ensures rc == 0
    ensures filled == FillZeros(page, size, idx, to)
  {
    rc, filled := 0, page;
    if size / PAGE_SIZE != idx {
      return;
    }
    var endByte := size % PAGE_SIZE;
    if to > endByte {
      endByte := to;
    }
    filled := Zeroed(page, endByte, PAGE_SIZE);
  }

  class Mapping {
    const prim: Primitives
    var lower: seq<Byte>
    var size: nat
    var cache: map<nat, Page>
    var key: Option<Key>
    var pending: Option<Pending>
    var live: bool
    var isOpen: bool
    var priv: Private
    var lowerFile: bool
    var lowerInode: bool

    function State(): File
      reads this
    {
      File(lower, size, cache, key, pending, live, isOpen, priv, lowerFile, lowerInode)
    }

    /** The mapping of an inode that wrapfs_iget just made over a lower file. */
    constructor (prim: Primitives, contents: seq<Byte>)
      ensures this.prim == prim
      ensures State() == Fresh(contents)
    {
      this.prim := prim;
      lower, size, cache := contents, |contents|, map[];
      key, pending := None, None;
      live, isOpen, priv, lowerFile, lowerInode := true, false, Null, false, true;
    }

    /** vfs_write on the lower file: `w` is decided by the lower file system. */
    method LowerWrite(bytes: seq<Byte>, offset: nat, w: int) returns (rc: int)
      requires w <= |bytes|
      modifies this`lower
      ensures rc == w
      ensures lower == if w < 0 then old(lower) else WriteAt(old(lower), offset, bytes[..w], ZERO)
    {
      rc := w;
      if w >= 0 {
        lower := WriteAt(lower, offset, bytes[..w], ZERO);
      }
    }

    method WriteBegin(pos: nat, len: nat, blank: Option<PageData>) returns (rc: int)
      requires Unlocked(State(), pos / PAGE_SIZE)
      modifies this
      ensures (State(), rc) == PageCache.WriteBegin(old(State()), pos, len, blank)
    {
      var idx := pos / PAGE_SIZE;
      if key.None? {
        return -EPERM;
      }
      var page := Grabbed(State(), idx, blank);
      if page.None? {
        return -ENOMEM;
      }
      var pg := Lock(page.value).(refs := page.value.refs + 1);
      pending := Some(Pending(pos, len, pg.uptodate));
      if !pg.uptodate && len != PAGE_SIZE {
        var from := pos % PAGE_SIZE;
        pg := pg.(data := Zeroed(Zeroed(pg.data, 0, from), from + len, PAGE_SIZE));
      }
      cache := cache[idx := pg.(uptodate := true)];
      return 0;
    }

    /** The encrypting half of write_end: through a scratch page with a key,
        straight from the page without one, and always at the page's start. */
    method StorePage(idx: nat, from: nat, copied: nat, w: int) returns (rc: int)
      requires InFlight(State()) && from + copied <= PAGE_SIZE && w <= copied
      requires idx == pending.value.pos / PAGE_SIZE && from == pending.value.pos % PAGE_SIZE
      modifies this`lower
      ensures rc == w
      ensures lower == if w < 0 then old(lower)
                       else WriteAt(old(lower), Start(idx), Outgoing(prim, old(State()), copied)[..w], ZERO)
    {
      var data := cache[idx].data;
      var virt := new Byte[PAGE_SIZE](j requires 0 <= j < PAGE_SIZE => data[j]);
      assert virt[..] == data;
      if key.Some? {
        var dst := new Byte[PAGE_SIZE];
        var ret := EncryptPage(prim, virt, dst, key.value, Ready);
        rc := LowerWrite(dst[..copied], Start(idx), w);
      } else {
        rc := LowerWrite(virt[from..from + copied], Start(idx), w);
      }
    }

    method WriteEnd(copied: nat, w: Option<int>) returns (rc: int)
      requires InFlight(State()) && pending.value.pos % PAGE_SIZE + copied <= PAGE_SIZE
      requires if w.Some? then w.value <= copied else key.Some?
      modifies this
      ensures (State(), rc) == PageCache.WriteEnd(prim, old(State()), copied, w)
    {
      var pos := pending.value.pos;
      var idx, from := pos / PAGE_SIZE, pos % PAGE_SIZE;
      var to := from + copied;
      if !lowerFile {
        pending := None;
        return -EIO;
      }
      if w.None? {
        // Here the source also calls kunmap on the scratch page it could not get.
        pending, cache := None, cache[idx := PutPage(Unlock(cache[idx]))];
        return 0;
      }
      rc := StorePage(idx, from, copied, w.value);
      if rc > 0 {
        rc := 0;
      }
      if rc == 0 {
        rc := copied;
        size := |lower|;
      }
      var page := cache[idx];
      var filled;
      rc, filled := FillZerosToEndOfPage(page.data, size, idx, to);
      page := Unlock(page.(data := filled));
      if pos + copied > size {
        size := pos + copied;
      }
      rc := copied;
      pending, cache := None, cache[idx := PutPage(page)];
    }

    /** The VFS locks the page and calls readpage; what the lower read returns is
        `r`. Without a scratch page the source also calls kunmap on a null one. */
    method ReadPage(idx: nat, blank: PageData, scratch: Option<PageData>, r: int) returns (err: int)
      requires r <= Available(lower, idx) && Unlocked(State(), idx)
      requires !priv.Freed? && (priv.Live? ==> lowerFile)
      modifies this`cache
      ensures (State(), err) == PageCache.ReadPage(prim, old(State()), idx, blank, scratch, r)
    {
      cache := cache[idx := LockedPage(State(), idx, blank)];
      if key.None? {
        return -EPERM;
      }
      if scratch.None? {
        err := -ENOMEM;
      } else if priv.Null? {
        err := -ENOENT;
      } else {
        var raw := Incoming(lower, idx, scratch.value, r);
        var dst := new Byte[PAGE_SIZE](j requires 0 <= j < PAGE_SIZE => raw[j]);
        assert dst[..] == raw;
        err := if r > 0 then 0 else r;
        var page := new Byte[PAGE_SIZE];
        err := DecryptPage(prim, page, dst, key.value, Ready);
        cache := cache[idx := cache[idx].(data := page[..])];
      }
      cache := cache[idx := Unlock(cache[idx].(uptodate := err == 0))];
      assert cache == old(cache)[idx := cache[idx]];
    }

    /** The guard as written leaves when there IS a lower inode; when there is
        none, taking its mapping dereferences null (None). */
    method WritePage(idx: nat) returns (err: Option<int>)
      requires idx in cache && cache[idx].locked
      modifies this`cache
      ensures (State(), err) == PageCache.WritePage(old(State()), idx)
    {
      if lowerInode {
        err := Some(0);
      } else {
        return None;
      }
      cache := cache[idx := Unlock(cache[idx])];
    }

    /** lock_page, by the VFS. */
    method LockPage(idx: nat)
      requires idx in cache && Unlocked(State(), idx)
      modifies this`cache
      ensures State() == PageCache.LockPage(old(State()), idx)
    {
      cache := cache[idx := Lock(cache[idx])];
    }

    /** The VFS copies user bytes into the locked page. */
    method CopyIn(bytes: seq<Byte>)
      requires InFlight(State())
      modifies this`cache
      ensures State() == PageCache.CopyIn(old(State()), bytes)
    {
      var idx, from := pending.value.pos / PAGE_SIZE, pending.value.pos % PAGE_SIZE;
      cache := cache[idx := cache[idx].(data := Spliced(cache[idx].data, from, bytes))];
    }

    method DropPage(idx: nat)
      modifies this`cache
      ensures State() == PageCache.DropPage(old(State()), idx)
    {
      cache := cache - {idx};
    }

    method Open(o: OpenOutcome) returns (err: int)
      modifies this`isOpen, this`priv, this`lowerFile
      ensures (State(), err) == PageCache.Open(old(State()), o)
    {
      priv := Null;
      if o.Unhashed? {
        return -ENOENT;
      }
      if !o.NoMemory? {
        priv := Live;
      }
      if priv.Null? {
        return -ENOMEM;
      }
      err := 0;
      if o.LowerFails? {
        err := -o.errno;
        priv := Freed;
      } else {
        isOpen, lowerFile := true, true;
      }
    }

    method Release()
      modifies this`isOpen, this`priv, this`lowerFile
      ensures State() == PageCache.Release(old(State()))
    {
      if lowerFile {
        lowerFile := false;
      }
      isOpen, priv := false, Freed;
    }

    method Evict()
      modifies this`cache, this`live, this`lowerInode
      ensures State() == PageCache.Evict(old(State()))
    {
      cache, live, lowerInode := map[], false, false;
    }

    /** wrapfs_iget over the lower file of an evicted inode. */
    method Iget()
      modifies this`live, this`lowerInode, this`size
      ensures State() == PageCache.Iget(old(State()))
    {
      live, lowerInode := true, true;
      size := |lower|;
    }

    method Truncate(n: nat, sizeOk: bool, lowerOk: bool)
      modifies this
      ensures State() == PageCache.Truncate(old(State()), n, sizeOk, lowerOk)
    {
      if !sizeOk {
        return;
      }
      size, cache := n, TruncatedCache(cache, n);
      if lowerOk {
        lower := Resize(lower, n);
      }
    }

    method SetKey(str: string, len: nat)
      modifies this`key
      ensures State() == PageCache.SetKey(prim, old(State()), str, len)
    {
      if str == "0" {
        key := None;
        return;
      }
      key := Some(prim.md5(str, len));
    }
  }
}
