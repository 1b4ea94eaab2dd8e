/** The per-page cipher of crypto.c: counter mode over a block cipher, with a
    fresh transform, and so an all-zero first counter, for every page. */
module PageCipher {
  /** A byte as its eight bits. */
  datatype Byte = Byte(b0: bool, b1: bool, b2: bool, b3: bool, b4: bool, b5: bool, b6: bool, b7: bool) {
    function Xor(o: Byte): Byte {
      Byte(b0 != o.b0, b1 != o.b1, b2 != o.b2, b3 != o.b3, b4 != o.b4, b5 != o.b5, b6 != o.b6, b7 != o.b7)
    }
  }

  const ZERO := Byte(false, false, false, false, false, false, false, false)

  const PAGE_SIZE: nat := 4096
  const BLOCK_SIZE: nat := 16

  type Block = b: seq<Byte> | |b| == 16 witness seq(16, _ => ZERO)
  type Key = k: seq<Byte> | |k| == 16 witness seq(16, _ => ZERO)
  type PageData = d: seq<Byte> | |d| == PAGE_SIZE witness seq(PAGE_SIZE, _ => ZERO)

  /** The kernel's primitives, about which nothing is assumed but their result
      sizes: the block cipher applied to a counter, and the digest of a key
      string. */
  datatype Primitives = Primitives(
    aes: (Key, nat) -> Block,
    md5: (string, nat) -> Key)
  {
    /** The byte that position `j` of every page is combined with. */
    function Keystream(k: Key, j: nat): Byte {
      aes(k, j / BLOCK_SIZE)[j % BLOCK_SIZE]
    }

    function Crypt(k: Key, s: seq<Byte>): (r: seq<Byte>)
      ensures |r| == |s|
    {
      seq(|s|, j requires 0 <= j < |s| => s[j].Xor(Keystream(k, j)))
    }
  }

  lemma XorCancels(a: Byte, b: Byte)
    ensures a.Xor(b).Xor(b) == a
  {}

  /** Reading a byte back under another pad gives the byte iff the pads agree. */
  lemma XorRecoversIff(a: Byte, b: Byte, c: Byte)
    ensures a.Xor(b).Xor(c) == a <==> b == c
  {}

  /** Counter mode: byte `i` of block `b` is combined with that of the cipher of
      counter `b`, which starts at 0 for every page. */
  lemma CounterMode(p: Primitives, k: Key, s: seq<Byte>, b: nat, i: nat)
    requires i < BLOCK_SIZE && BLOCK_SIZE * b + i < |s|
    ensures p.Crypt(k, s)[BLOCK_SIZE * b + i] == s[BLOCK_SIZE * b + i].Xor(p.aes(k, b)[i])
  {
    assert (BLOCK_SIZE * b + i) / BLOCK_SIZE == b && (BLOCK_SIZE * b + i) % BLOCK_SIZE == i;
  }

  /** Decryption, the same transform, undoes encryption for every key. */
  lemma DecryptUndoesEncrypt(p: Primitives, k: Key, s: seq<Byte>)
    ensures p.Crypt(k, p.Crypt(k, s)) == s
  {
    var c := p.Crypt(k, s);
    forall j | 0 <= j < |s|
      ensures p.Crypt(k, c)[j] == s[j]
    {
      XorCancels(s[j], p.Keystream(k, j));
    }
  }

  /** Ciphertext byte `j` depends on plaintext byte `j` alone: two pages agree on
      a ciphertext prefix iff they agree on the plaintext prefix, and a prefix
      of the ciphertext is the ciphertext of the prefix. */
  lemma PrefixOfCiphertext(p: Primitives, k: Key, s: seq<Byte>, t: seq<Byte>, n: nat)
    requires n <= |s| && n <= |t|
    ensures p.Crypt(k, s)[..n] == p.Crypt(k, s[..n])
    ensures p.Crypt(k, s)[..n] == p.Crypt(k, t)[..n] <==> s[..n] == t[..n]
  {
    var c, d := p.Crypt(k, s), p.Crypt(k, t);
    if c[..n] == d[..n] {
      forall j | 0 <= j < n
        ensures s[j] == t[j]
      {
        assert c[..n][j] == d[..n][j];
        XorCancels(s[j], p.Keystream(k, j));
        XorCancels(t[j], p.Keystream(k, j));
      }
    }
    if s[..n] == t[..n] {
      forall j | 0 <= j < n
        ensures c[j] == d[j]
      {
        assert s[..n][j] == t[..n][j];
      }
    }
  }

  /** The transform as the kernel runs it, block by block with a counter. */
  method CtrCrypt(p: Primitives, k: Key, src: array<Byte>, dst: array<Byte>)
    requires src != dst && src.Length == dst.Length
    modifies dst
    ensures dst[..] == p.Crypt(k, src[..])
  {
    var ctr, off := 0, 0;
    while off < src.Length
      invariant off == BLOCK_SIZE * ctr
      invariant forall j :: 0 <= j < off && j < src.Length ==> dst[j] == src[j].Xor(p.Keystream(k, j))
    {
      var pad := p.aes(k, ctr);
      var i := 0;
      while i < BLOCK_SIZE && off + i < src.Length
        invariant 0 <= i <= BLOCK_SIZE
        invariant forall j :: 0 <= j < off + i && j < src.Length ==> dst[j] == src[j].Xor(p.Keystream(k, j))
      {
        assert (off + i) / BLOCK_SIZE == ctr && (off + i) % BLOCK_SIZE == i;
        dst[off + i] := src[off + i].Xor(pad[i]);
        i := i + 1;
      }
      ctr, off := ctr + 1, off + BLOCK_SIZE;
    }
  }

  /** What may go wrong: no transform, a refused key, a failing cipher. */
  datatype Setup = Ready | NoTransform | SetkeyFails(errno: int) | CipherFails(errno: int)

  /** wrapfs_encrypt_page_new. A transform that cannot be allocated leaves the
      loop with ret still 0, so the call reports success; the sign test after
      the transform can never hold, because ret is unsigned, and changes nothing.
      What a failing cipher leaves in the destination is not said. */
  method EncryptPage(p: Primitives, page: array<Byte>, dst: array<Byte>, k: Key, setup: Setup) returns (ret: int)
    requires page != dst && page.Length == dst.Length
    requires setup.SetkeyFails? || setup.CipherFails? ==> setup.errno > 0
    modifies dst
    ensures setup.Ready? ==> ret == 0 && dst[..] == p.Crypt(k, page[..])
    ensures setup.NoTransform? || setup.SetkeyFails? ==> dst[..] == old(dst[..])
    ensures ret == 0 <==> setup.Ready? || setup.NoTransform?
  {
    ret := 0;
    if setup.NoTransform? {
      return;
    }
    if setup.SetkeyFails? {
      ret := -setup.errno;
      return;
    }
    CtrCrypt(p, k, page, dst);
    if setup.CipherFails? {
      ret := -setup.errno;
    }
  }

  /** wrapfs_decrypt_page_new: the lower page `dst` is the source and the upper
      page the destination. */
  method DecryptPage(p: Primitives, page: array<Byte>, dst: array<Byte>, k: Key, setup: Setup) returns (ret: int)
    requires page != dst && page.Length == dst.Length
    requires setup.SetkeyFails? || setup.CipherFails? ==> setup.errno > 0
    modifies page
    ensures setup.Ready? ==> ret == 0 && page[..] == p.Crypt(k, dst[..])
    ensures setup.NoTransform? || setup.SetkeyFails? ==> page[..] == old(page[..])
    ensures ret == 0 <==> setup.Ready? || setup.NoTransform?
  {
    ret := 0;
    if setup.NoTransform? {
      return;
    }
    if setup.SetkeyFails? {
      ret := -setup.errno;
      return;
    }
    CtrCrypt(p, k, dst, page);
    if setup.CipherFails? {
      ret := -setup.errno;
    }
  }
}
