/** The inode hash that iget5_locked searches: chains by lower inode number, and
    the pointer test of wrapfs_inode_test within a chain. It answers as the
    one-to-one table of upper inodes would, though numbers may collide. */
module InodeIndex {
  import opened Common
  import opened Namespace

  type Chains = map<nat, seq<nat>>

  predicate InChain(chains: Chains, h: nat, i: nat) {
    h in chains && i in chains[h]
  }

  /** A chain holds exactly the live inodes whose lower inode has its number. */
  ghost predicate Indexed(chains: Chains, inodes: map<nat, nat>, ino: nat -> nat) {
    forall h: nat, i: nat :: InChain(chains, h, i) <==> i in inodes && ino(inodes[i]) == h
  }

  /** wrapfs_inode_test. */
  predicate InodeTest(inodes: map<nat, nat>, i: nat, candidate: nat) {
    StandsOn(inodes, i, candidate)
  }

  /** The search of iget5_locked finds an inode iff one stands on the lower
      inode: the same one every time, and different ones for different lower
      inodes, since no two stand on the same. */
  method Find(chains: Chains, inodes: map<nat, nat>, ino: nat -> nat, li: nat) returns (r: Option<nat>)
    requires Indexed(chains, inodes, ino) && Injective(inodes)
    ensures r.Some? <==> Known(inodes, li)
    ensures r.Some? ==> r.value == UpperOf(inodes, li)
  {
    var h := ino(li);
    var chain := if h in chains then chains[h] else [];
    var k := 0;
    while k < |chain|
      invariant 0 <= k <= |chain|
      invariant forall x :: 0 <= x < k ==> !StandsOn(inodes, chain[x], li)
    {
      if InodeTest(inodes, chain[k], li) {
        return Some(chain[k]);
      }
      k := k + 1;
    }
    forall i: nat
      ensures !StandsOn(inodes, i, li)
    {
      assert InChain(chains, h, i) <==> i in inodes && ino(inodes[i]) == h;
    }
    return None;
  }

  function Inserted(chains: Chains, h: nat, i: nat): Chains {
    chains[h := (if h in chains then chains[h] else []) + [i]]
  }

  lemma InsertIndexes(chains: Chains, inodes: map<nat, nat>, ino: nat -> nat, i: nat, li: nat)
    requires Indexed(chains, inodes, ino) && i !in inodes
    ensures Indexed(Inserted(chains, ino(li), i), inodes[i := li], ino)
  {
    var c, m := Inserted(chains, ino(li), i), inodes[i := li];
    forall h: nat, j: nat
      ensures InChain(c, h, j) <==> j in m && ino(m[j]) == h
    {
      assert InChain(chains, h, j) <==> j in inodes && ino(inodes[j]) == h;
    }
  }

  /** Unhashing an evicted inode, by the walk that unlinks it from its chain. */
  method Unhash(chain: seq<nat>, i: nat) returns (rest: seq<nat>)
    ensures forall j :: j in rest <==> j in chain && j != i
  {
    rest := [];
    for k := 0 to |chain|
      invariant forall j :: j in rest <==> j in chain[..k] && j != i
    {
      if chain[k] != i {
        rest := rest + [chain[k]];
      }
    }
    assert chain[..|chain|] == chain;
  }

  lemma EvictIndexes(chains: Chains, inodes: map<nat, nat>, ino: nat -> nat, i: nat, rest: seq<nat>)
    requires Indexed(chains, inodes, ino) && i in inodes && ino(inodes[i]) in chains
    requires forall j :: j in rest <==> j in chains[ino(inodes[i])] && j != i
    ensures Indexed(chains[ino(inodes[i]) := rest], inodes - {i}, ino)
  {
    var c, m := chains[ino(inodes[i]) := rest], inodes - {i};
    forall h: nat, j: nat
      ensures InChain(c, h, j) <==> j in m && ino(m[j]) == h
    {
      assert InChain(chains, h, j) <==> j in inodes && ino(inodes[j]) == h;
    }
  }
}
