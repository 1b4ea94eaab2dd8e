# A Dafny model of wrapfs with encryption

wrapfs is a Linux file system that stacks on another one. It has two halves, and
so has this model.

**The page path** (`mmap.c`, `crypto.c`, the key of `file.c` and `wrapfs.h`). A
file is a cache of cleartext pages over a lower file of ciphertext. `PageCache`
says what each address-space operation does to that state, for every offset,
hole and lower I/O result; `Mmap` is the code itself, a class whose methods go
step by step and are proved to do just that. `FileRuns` interleaves the
operations freely, the two halves of a write included, beside a plain file in
which every byte carries the key it was last written under. `FileTheorems` says
what a reader is promised; `FileLimits` says where the code parts from a plain
file, each time with the exact condition, and what every run keeps; `FileEffects`
says what each operation does and answers, byte by byte. `FileSession` joins code
and runs.

**The stacking layer** (`inode.c`, `lookup.c`, `dentry.c`, `super.c`, `main.c`,
`wrapfs.h`). Upper dentries and inodes stand on lower ones, and wrapfs holds
references, mutexes and write claims below. `Namespace` gives the net effect of
each operation over every outcome of the lower calls, `Stacking` proves that
each keeps the invariant on every exit, `NamespaceRuns` and `LinkCounts` draw
the consequences for whole runs, and `NamespaceEffects` says when each operation
succeeds, what it answers else, and what becomes of each name. `Wrapfs` is the code, a class that takes and puts every reference and
lock in the order of the source; `InodeIndex` is the inode hash; `Simulation`
joins code and runs. `UpperTree` shows that the upper dentries stay a tree, and
`Unmounting` follows a mount from its first reference to its last. `LowerTree` is
about directory trees and lock_rename, `Tally` about counting references,
`MountOptions` about mounting.

## What is taken from the kernel

- The block cipher and the digest are parameters about which nothing is assumed
  but the sizes of their results, and so is the conversion of a debug level. Counter mode starts every
  page at counter zero, because a new transform is made for each page (section
  6.5 of NIST SP 800-38A describes the mode).
- Each lower call takes its result as a parameter; the predicates named `Can...`
  in `Namespace` and `Enabled` in `FileRuns` state what the VFS and the lower
  file system guarantee: a locked page is waited for, one write or truncation at
  a time per inode, a name is looked up only where no dentry has it, a lower
  lookup answers with a child of the directory or with something on another file
  system, a lower directory has one dentry, a removed or replaced directory has
  no attached children.
- lock_rename, d_ancestor, d_move, d_add, d_delete, iget5_locked, strsep and
  generic_shutdown_super are written out. d_delete leaves the inode of a lower dentry that has other users;
  that wrapfs holds such a use is proved, not assumed.
- igrab succeeds on an inode that a held lower path pins.
- Operations are atomic steps, but for key changes and other pages' operations
  between write_begin and write_end.

## Where the code and its documentation differ

- README.md says that writepage writes a dirty page to disk. Its guard
  (mmap.c:213) lets a live lower inode through to the exit that writes nothing;
  the model follows the code (`FileLimits.OnlyWritesChangeLower`).
- README.md says that files encrypted with another key cannot be accessed. A page
  that is cached up to date goes on being read after the key is changed or
  cleared (`FileTheorems.CachedOutlivesKey`), and one that was read under a wrong
  key stays garbled after the right one is set (`FileTheorems.WrongKeyStays`).
- README.md says that write_end takes care of all offsets. It stores at the start
  of the page whatever the offset of the chunk (mmap.c:386, mmap.c:408); see
  `FileLimits.ChunkIsPlainIff`.

## Model

| member | source | states |
|---|---|---|
| PageCipher.CtrCrypt | crypto.c:58-79 | the block-by-block counter loop equals the bytewise combination with a position-indexed keystream |
| PageCipher.CounterMode | crypto.c:58-79 | each block is combined with the cipher of its number, counted from 0 on every page |
| PageCipher.DecryptUndoesEncrypt | crypto.c:115-135 | for every key and every page decryption gives back what was encrypted |
| PageCipher.PrefixOfCiphertext | mmap.c:405-408 | a ciphertext prefix is the ciphertext of the prefix, and two pages agree on one iff they agree on the other, so storing a prefix of the encrypted page is sound |
| PageCipher.EncryptPage | crypto.c:22-86 | the destination holds the ciphertext when all goes well and is untouched when no transform or no key could be set; 0 is returned also when no transform could be had, and an error when setting the key or the cipher fails |
| PageCipher.DecryptPage | crypto.c:88-142 | the same, from the lower page into the upper one |
| Mmap.FillZerosToEndOfPage | mmap.c:314-327 | the bytes FillZeros describes; FillZerosExact says which those are |
| Mmap.Mapping.WriteBegin | mmap.c:270-312 | refused without a key with nothing changed; else the page is grabbed, zeroed around a partial chunk if not up to date, locked and marked up to date |
| Mmap.Mapping.StorePage | mmap.c:362-414 | what reaches the lower file: the first copied ciphertext bytes, or the copied cleartext without a key, at the page's start |
| Mmap.Mapping.WriteEnd | mmap.c:329-464 | whole effect on lower bytes, sizes and page; but for the missing-file exit the page is unlocked exactly once and released exactly once; reports all copied bytes whatever the lower write returned, and 0 when no scratch page could be had |
| Mmap.Mapping.ReadPage | mmap.c:20-193 | the decrypted lower page, up to date, whatever the lower read returned; not up to date without a scratch page; unlocked exactly once, and not at all without a key |
| Mmap.Mapping.WritePage | mmap.c:198-264 | with a lower inode the locked page is unlocked, exactly once, and no more; without one a null pointer is dereferenced |
| Mmap.Mapping.Truncate | inode.c:449-473 | upper size and cache change before the lower file is asked, and stay changed when it refuses |
| Mmap.Mapping.SetKey | file.c:141-180 | the string "0" clears the key, any other sets its digest |
| Mmap.Mapping.Open | file.c:318-361 | after success private data and lower file are set; after a failed lower open the private data is freed and its pointer left |
| Mmap.Mapping.Release | file.c:389-401 | the lower file is gone and the private data freed |
| Mmap.Mapping.Iget | lookup.c:98-156 | an evicted inode looked up again has its lower inode and takes its size from below |
| FileRuns.Run | file.c:333-356 | in every reachable state an open file has its lower file, a live inode its lower inode, every cached page a live inode; a pending write has its page locked and up to date, only that page has a caller's reference, and any other locked page is not up to date |
| FileRuns.FinishEffect | mmap.c:386-451 | a completed chunk at any offset, seen from the lower file and the sizes |
| FileRuns.RunRefines | mmap.c:386-408 | over every run of aligned hole-free writes, key changes anywhere, reads, reclaim and shrinking truncations, each lower byte under the key it was last written with is the plain file's byte, and both sizes are its length |
| FileRuns.StuckExactly | mmap.c:52-71 | after every run the pages left locked, beyond the one being written, are exactly those readpage was asked for without a key |
| FileTheorems.FillZerosExact | mmap.c:314-327 | once the size reaches the page exactly the bytes at or past the final size are cleared, for every size, index and offset |
| FileTheorems.TailIsZero | mmap.c:429-451 | after every stored chunk all bytes of its page at or past the upper size are zero |
| FileTheorems.ChunkCoherence | mmap.c:335-336 | for any in-page offset, past a hole or not: below, only [page start, page start + copied) changes; in the page a position is coherent iff it lies below copied or the lower file already held what the page now shows |
| FileTheorems.CoherenceLost | mmap.c:405-408 | a coherent page loses coherence exactly at changed positions from max(from, copied) up to from + copied, so never when from is 0 |
| FileTheorems.RunKeyed | mmap.c:149-180 | over every run whose writes, at any offsets, misplace nothing, do not start past the end and fill an up-to-date page or cover what the lower file has of it, with keys changed at will, every up-to-date page agrees with the lower file byte by byte under the key the byte was last read or written under |
| FileTheorems.OneKeyRun | mmap.c:301-309 | so under one key, cleared or not, every up-to-date page agrees with the decrypted lower file below its end |
| FileTheorems.ReadsUnderKey | mmap.c:52-180 | what a reader gets is the lower byte unmasked with one key: that behind the byte if its page is cached, else the current one; nothing without a key or from a page left locked |
| FileTheorems.ReadsAsPlainFile | mmap.c:52-151 | from any lower contents, after any aligned such run under one key, eviction included, a byte below the end reads as the plain file's byte iff its page was never asked for while no key was set, and there is a key now or the page is cached |
| FileTheorems.StuckForever | mmap.c:67-69 | a page left locked by a reader without a key answers no reader after any further run |
| FileTheorems.ReadBeforeKeyHangs | mmap.c:67-69 | open, read, set the key: a run the headline allows, after which the first page is never read |
| FileTheorems.DropThenRead | mmap.c:111-180 | dropping a coherent page and reading it again gives the same byte at every position below the end |
| FileTheorems.ReadBackIff | mmap.c:149-153 | after key changes a reader gets the plain file's byte, cached or not, iff the key it is read under masks its position as the key it was written under did |
| FileTheorems.SameStringRecovers | wrapfs.h:242-251 | after any aligned run, setting a key string again recovers a byte last written under it iff its page was never asked for while no key was set and, if the page is cached, the key behind the byte masks it as the right one does |
| FileTheorems.CachedOutlivesKey | mmap.c:179-180 | a cached page reads the same after any run that does not drop, truncate or write it, whatever key is set or cleared |
| FileTheorems.WrongKeyStays | wrapfs.h:242-246 | a wrong key, a read and the right key again: a run with no read without a key, after which the byte is recovered iff the two keys mask it alike, for as long as the page is not touched |
| FileLimits.AlignedChunkIff | mmap.c:386-408 | an aligned chunk is a plain write iff the keystream is zero over the hole it leaves |
| FileLimits.ChunkIsPlainIff | mmap.c:386-411 | a chunk that leaves no hole is a plain write for all contents iff it starts at a page's start |
| FileLimits.UnfilledCoherentIff | mmap.c:301-309 | after a partial chunk at any offset on a page not up to date, a position outside the chunk shows what the lower file holds iff it lies below copied, or the lower file is zero there or has ended |
| FileLimits.HeadLost | mmap.c:301-306 | such a chunk stores zeros over the head of the page that lies before it and below copied: what the file had there is lost unless it was zero |
| FileLimits.ShortWriteIff | mmap.c:405-452 | an aligned hole-free write of which w bytes reach the lower file is the plain write of those, and of all iff the rest was there already; write_end reports all |
| FileLimits.NoScratchIff | mmap.c:372-377 | without a scratch page nothing is stored and 0 reported, and a coherent page loses coherence exactly where the copied bytes changed it |
| FileLimits.ShortReadIff | mmap.c:124-151 | after a short or failing lower read the page is up to date and 0 reported; a byte agrees iff it was read, or the lower file has ended, or the scratch page happened to hold it |
| FileLimits.TruncateIsPlainIff | inode.c:449-470 | a truncation is a plain one iff the keystream is zero over what it adds |
| FileLimits.WritepageLeaves | mmap.c:210-215 | in every reachable state writepage finds a lower inode and reports success, and all is as before the page was locked |
| FileLimits.OnlyWritesChangeLower | mmap.c:210-215 | over every run without write_end and truncation the lower file stays as it was, and so does the size unless the inode is looked up again |
| FileLimits.SurvivesIff | mmap.c:210-215 | after every such run that put a page out of the cache, a byte reads as before iff it agreed with the lower file and nobody asked for the page without a key |
| FileLimits.StoredBytesSurvive | mmap.c:405-415 | so no byte that write_end stored is lost by writing back, dropping, re-reading, closing or re-keying |
| FileLimits.ReclaimLosesIff | mmap.c:210-215 | writing a page back and dropping it after a chunk loses exactly the bytes the chunk changed at or past copied |
| FileLimits.SizesStayClose | mmap.c:429-451 | over every run with complete non-empty lower writes, at any offsets, the upper size is at least the lower size and less than a page ahead |
| FileLimits.SizesStayEqual | mmap.c:386-451 | when every chunk starts at a page's start the sizes stay equal, with holes and growing truncations or without |
| FileLimits.TruncateKeepsSizesIff | inode.c:449-473 | a size change keeps the two sizes equal iff it is refused at once or the lower one succeeds |
| FileLimits.ClearBranchNotTaken | mmap.c:365-411 | over every run, at any offsets, with holes and whatever the lower calls return, if no key change falls inside a write then every write_end finds a key and stores ciphertext only |
| FileLimits.NothingInTheClear | mmap.c:287-291 | so in the plain file of an aligned run no byte was last written in the clear |
| FileLimits.ClearedInsideWrite | mmap.c:410-411 | a key cleared between write_begin and write_end does: the copied bytes land as they are |
| FileLimits.KeylessRunStoresNothing | main.c:197 | from a mount with no key, a run that sets none and truncates nothing changes no lower byte, makes no page readable and keeps the size unless the inode is looked up again |
| FileEffects.BeginExactly | mmap.c:287-311 | write_begin answers -EPERM without a key and -ENOMEM without a page, changing nothing; else the page is locked, referenced and up to date and nothing else changes |
| FileEffects.BegunBytes | mmap.c:301-306 | every byte of the page after write_begin: as it was, or zero outside the chunk of a page not up to date |
| FileEffects.FinishExactly | mmap.c:425-452 | whatever the lower write returns write_end reports all, ends the write and lets the page go; a failed write leaves the lower file, and the size but for the end of the chunk |
| FileEffects.FinishedBytes | mmap.c:435-447 | every byte of the page after write_end, however much was stored: the copied or the old byte below the final size, zero from there on |
| FileEffects.FinishedLower | mmap.c:386-411 | every byte of the lower file after w bytes were stored: of the page encrypted with a key, of the chunk without one, at the page's start |
| FileEffects.AbandonExactly | mmap.c:372-377 | without a scratch page only the page changes, by the copied bytes |
| FileEffects.WriteThenRead | mmap.c:270-464 | on any unlocked page of an open file with a key a write can be made at any offset, and is what is read next whatever became of it below |
| FileEffects.ReadExactly | mmap.c:52-189 | readpage answers -EPERM without a key, leaving the page locked, -ENOMEM without a scratch page, and else 0; nothing but the page changes |
| FileEffects.ReadBytes | mmap.c:124-151 | every byte of the page after readpage: what was read, or what the scratch page held, decrypted |
| FileEffects.TruncateExactly | inode.c:449-473 | a refused truncation does nothing; any other sets the size, drops the pages from there on and resizes the lower file unless that is refused |
| FileEffects.TruncatedBytes | inode.c:453 | of a page that stays, the bytes below the new size stay and the rest is zero |
| FileEffects.CutOffReadsZero | inode.c:449-470 | a cached byte cut off by a truncation reads as zero when the file grows again |
| FileEffects.ClearedKeyGates | file.c:141-145 | once "0" is set no run that sets no key stores a byte or makes a page readable, a write is refused, and a page not cached gives a reader nothing |
| FileEffects.OpenExactly | file.c:318-401 | a file is open, with a lower file, from a successful open to its release, and only then |
| FileEffects.EvictThenIget | super.c:82-95 | eviction drops the pages and lets the lower inode go; looked up again the inode is a fresh one over the lower file |
| FileSession.Perform | mmap.c:358-360 | each operation of the code, issued in a reachable state, is the step of the machine; the missing-lower-file exit of write_end and the null dereference of writepage are not reached |
| FileSession.Session | mmap.c:518-524 | a whole sequence of operations ends in the state the run ends in |
| LowerTree.DAncestor | inode.c:293 | the walk finds the child of one directory at or above the other, iff there is one |
| LowerTree.LockRename | inode.c:293 | the trap is that child for whichever directory is above the other |
| LowerTree.TrapTestsExact | inode.c:294-303 | the two comparisons reject exactly a move of a node under itself and a move onto its own ancestor |
| LowerTree.MoveKeepsTreeIff | inode.c:290-313 | after the move every node still reaches the root iff neither comparison rejected it |
| InodeIndex.Find | lookup.c:57-95 | hash by inode number and comparison by pointer find an upper inode iff one stands on the lower inode, and that one, even when numbers collide |
| InodeIndex.InsertIndexes | lookup.c:97-105 | a new inode keeps the chains in step with the table |
| InodeIndex.EvictIndexes | super.c:82-95 | so does an evicted one |
| Stacking.InterposeKeeps | lookup.c:170-203 | interposition closes the square at the dentry and keeps all else, if an inode can be had |
| Stacking.LookupKeeps | lookup.c:211-284 | lookup keeps the whole invariant on every exit, if an inode can be had |
| Stacking.MakeKeeps | inode.c:14-49 | so do create, symlink, mkdir and mknod |
| Stacking.LinkKeeps | inode.c:51-92 | so does link, whose interposition cannot fail because the linked inode is known |
| Stacking.RemoveKeeps | inode.c:94-136 | so do unlink and rmdir |
| Stacking.NeverSameInode | inode.c:312-315 | a rename between different upper inodes never meets two lower names of one inode, where the lower rename would stay put |
| Stacking.RenameKeeps | inode.c:275-337 | rename keeps the whole invariant on every exit, the lower tree included |
| Stacking.ReleaseKeeps | dentry.c:41-47 | so does the release of a dentry |
| Stacking.EvictKeeps | super.c:82-95 | so does the eviction of an inode, which has a lower reference to give back |
| NamespaceRuns.StepKeeps | inode.c:497-509 | every operation keeps the invariant whatever the lower calls return |
| NamespaceRuns.Run | lookup.c:170-203 | in every reachable state the square commutes, both maps are one-to-one, the lower directories are a tree and each inode owns its lower reference |
| NamespaceRuns.RunPaths | wrapfs.h:169-224 | over whole lifetimes the lower paths held are those of the dentries and open files there are, one each, with one active reference to the lower superblock, and no mutex or write claim is left |
| NamespaceRuns.PathsCommute | lookup.c:235-272 | in every reachable state an attached dentry reaches the mount's root, and its path from there is, name by name, the path below it |
| NamespaceRuns.TrapsCoverUpper | inode.c:294-298 | a move that would put an upper dentry under itself is rejected by the lower comparison |
| UpperTree.RunGrounded | inode.c:294-315 | over every run all upper dentries, the removed ones included, stay one tree under the mount's root |
| UpperTree.TeardownExists | dentry.c:41-47 | from every reachable state closing files and releasing dentries, each when possible, leads down to the root alone |
| NamespaceEffects.BoundOnce | lookup.c:199 | a name is bound to at most one inode |
| NamespaceEffects.BoundBelow | lookup.c:178-199 | every name bound above is bound in the lower directory to the lower inode |
| NamespaceEffects.LookupExactly | lookup.c:211-320 | a lookup answers 0 for a name found on the same file system for which an inode can be had, and for a missing one to be created; each other outcome has its error; exactly then the dentry is there, over the lower dentry, and no other changed |
| NamespaceEffects.LookupBinds | lookup.c:238-245 | a lookup binds the name, if found and interposed, to the inode over the lower one, shared by all names of that inode, and touches no other name |
| NamespaceEffects.MakeExactly | inode.c:22-48 | create, symlink, mkdir and mknod succeed iff no lower call fails and an inode can be had; a failed lower call changes nothing |
| NamespaceEffects.MakeBelow | inode.c:32-48 | once made below, the lower dentry has the new inode and the counts are those of the lower call; on success the new upper inode stands on it |
| NamespaceEffects.MakeBinds | inode.c:32-39 | create, symlink, mkdir and mknod bind the name to an inode over the new lower one, or bind nothing |
| NamespaceEffects.LinkExactly | inode.c:61-91 | link succeeds iff no lower call fails, and copies the count unless the lower link leaves its new dentry negative |
| NamespaceEffects.LinkBinds | inode.c:72-84 | link binds the new name to the very inode of the old one, or nothing when it fails or the lower link leaves the new dentry negative |
| NamespaceEffects.RemoveExactly | inode.c:102-135 | unlink and rmdir succeed iff no lower call fails, a silly rename not counting; the dentry is dropped and the counts are as the lower call left them |
| NamespaceEffects.RemoveUnbinds | inode.c:110-128 | unlink and rmdir unbind exactly their name, above and below, or change nothing |
| NamespaceEffects.RenameExactly | inode.c:290-336 | a rename succeeds iff neither name lies under the other and no lower call fails; else it answers -EINVAL, -ENOTEMPTY or the first error, and changes nothing |
| NamespaceEffects.RenameBelow | inode.c:312-313 | on success the lower dentry has the other's place and name and keeps its inode, and the other is unhashed |
| NamespaceEffects.RenameRebinds | inode.c:312-324 | rename unbinds the old name, binds the new one to the moved inode and touches no other, or changes nothing |
| NamespaceEffects.SetattrExactly | inode.c:428-486 | setattr answers the first error, and copies the link count of that inode iff there is none |
| NamespaceEffects.OpenExactly | file.c:326-358 | a file opens iff its name is hashed, there is memory and the lower file opens; it then stands on the lower dentry of its name, and closing it undoes that |
| LinkCounts.StepMirrors | inode.c:82-83 | each operation keeps upper link counts equal to lower ones, if links are instantiated and renames go to free names |
| LinkCounts.RunMirrors | lookup.c:155 | so does every run |
| LinkCounts.RenameMirrorsIff | inode.c:312-324 | where the lower file system takes a link from an inode it replaces, a successful rename keeps the counts equal iff the new name is free |
| LinkCounts.CreateBalancedIff | lookup.c:88-92 | a create keeps the invariant iff an inode could be had; else one lower inode reference is put that was never taken |
| Wrapfs.Mount.constructor | main.c:71-105 | a fresh mount satisfies the invariant |
| Wrapfs.Mount.GetLowerPath | wrapfs.h:169-177 | one more path reference |
| Wrapfs.Mount.PutLowerPath | wrapfs.h:178-183 | one less, and there is one |
| Wrapfs.Mount.LockParent | wrapfs.h:213-218 | the lower parent referenced and its mutex held, which was free |
| Wrapfs.Mount.UnlockDir | wrapfs.h:220-224 | both given back |
| Wrapfs.Mount.IGet | lookup.c:72-160 | the net effect of IGet, with the hash kept in step |
| Wrapfs.Mount.Interpose | lookup.c:170-203 | the net effect of Interpose |
| Wrapfs.Mount.Make | inode.c:14-49 | the net effect of Make; references, mutexes, write claims and nd as before, for every outcome |
| Wrapfs.Mount.Link | inode.c:51-92 | the net effect of Link; everything held as before |
| Wrapfs.Mount.RemoveInDirectory | inode.c:205-236 | the net effect of Remove; everything held as before; the lower dentry keeps its inode because another use is held |
| Wrapfs.Mount.Unlink | inode.c:94-136 | the same, with one more reference meanwhile |
| Wrapfs.Mount.Rename | inode.c:275-337 | the net effect of Rename, lock_rename included; everything held as before |
| Wrapfs.Mount.LookupFound | lookup.c:238-245 | the path found is owned by the dentry, or put again when interposition fails |
| Wrapfs.Mount.Lookup | lookup.c:286-320 | the net effect of Lookup; the only path kept is that of a dentry it made |
| Wrapfs.Mount.Release | dentry.c:41-47 | the dentry's path is put |
| Wrapfs.Mount.Evict | super.c:82-95 | the inode's lower reference is put and it leaves the hash |
| Wrapfs.Mount.Open | file.c:318-361 | a path reference passes to the lower file, or is put when it cannot be opened |
| Wrapfs.Mount.Close | file.c:389-401 | that reference is put |
| Wrapfs.Mount.Revalidate | dentry.c:19-39 | the lower answer, or 1 when there is none; everything held, and nd, as before; a null nd is dereferenced iff there is a lower answer |
| Wrapfs.Mount.Setattr | inode.c:412-487 | the net effect of Setattr: the first error, and the link count copied when there is none; everything held as before |
| Simulation.Perform | inode.c:497-509 | any operation of the code on a valid mount is the step of the machine and leaves the mount valid |
| Simulation.Session | inode.c:497-509 | so a whole session ends where the run does, holding what the run says |
| MountOptions.ReadSuper | main.c:23-122 | each exit has its error; a failed mount gives back all it took iff it stops neither for want of the root's inode, nor at a stale lower inode, nor for want of the root dentry's private data |
| MountOptions.Strsep | main.c:151 | the text before the first comma and what follows it |
| MountOptions.OneSplit | main.c:150-154 | a string splits at its commas in one way only |
| MountOptions.EnablesAopsMeans | main.c:129-179 | aops are enabled iff an option "mmap" stands before the first rejected one |
| MountOptions.RejectedIff | main.c:129-179 | an option is rejected iff it is not empty, not "mmap" and not a well-formed debug level |
| MountOptions.ParseMountOptions | main.c:134-183 | the loop enables aops exactly so, and reports an error iff the first rejected option is a malformed debug level |
| MountOptions.VectorsByKind | lookup.c:109-153 | every inode has the vectors of its kind until it is evicted |
| MountOptions.VectorsUniform | lookup.c:117-153 | for the whole mount every file inode has the mmap file operations, and every inode but a directory the wrapfs address-space operations, iff the option string holds "mmap" before the first rejected option, though the root is made first |
| MountOptions.WrapfsMount | main.c:186-201 | after a successful wrapfs_read_super the mount has the vectors its options say; after every failed one the error pointer is dereferenced |
| Unmounting.Unmount | super.c:21-37 | from every reachable state with no file open, generic_shutdown_super always finds a leaf to release, evicts every inode and ends with nothing held below, the active reference to the lower superblock included |
| Unmounting.AlwaysCloses | file.c:389-401 | every reachable state has a session that closes all files and can be followed by unmounting |
| Unmounting.Lifetime | main.c:186-209 | from mounting through any session that closes its files to unmounting, all that was taken below is given back, unless mounting fails where its account is uneven; wrapfs_mount faults iff wrapfs_read_super fails |

## Left out

- FileTheorems.ReadsAsPlainFile: cases in which the code gives no plain file are excluded; each has its exact condition in FileLimits: chunks off a page's start (ChunkIsPlainIff), holes (AlignedChunkIff), growing truncations (TruncateIsPlainIff), failing ones (TruncateKeepsSizesIff), short or failing lower writes and reads (ShortWriteIff, ShortReadIff), no scratch page (NoScratchIff) and partial writes to pages not up to date (UnfilledCoherentIff, HeadLost). What a reader sees of a page while a write is filling it is not said.
- FileRuns.RunRefines: the same for offsets and holes, and a growing truncation, which leaves a hole.
- FileRuns.Run: one open handle per file; several handles of one inode share all the state that matters here.
- NamespaceRuns.Run: an operation for which wrapfs_iget finds no memory is not part of a run; LinkCounts.CreateBalancedIff says what it does.
- MountOptions.ParseMountOptions: which texts the kernel takes for a debug level is a parameter; that the option table has no end mark is not modelled.
- Wrapfs.Mount.IGet: the igrab failure exit, which an inode pinned by a held lower path does not reach, and the window in which a new inode is hashed before its lower inode is set.
- Unmounting.Lifetime: the memory of wrapfs's own inodes and dentries is not in the account.
- wrapfs_fault, vm_ops and stores through shared mappings: they depend on memory management that is not in the repository.
- O_APPEND handed to the lower open, which would move every lower write to the end of the lower file.
- The kunmap of a null scratch page on the exits of readpage and write_end that could not get one (mmap.c:187, mmap.c:461).
- The transforms and scratch pages that are never freed, and a transform that fails inside readpage or write_end.
- Timestamps, permissions and directory sizes, which are plain field copies.
- wrapfs_read, wrapfs_write, readdir, readlink, follow_link, flush, fsync, fasync, statfs, permission and the compat ioctl, which are thin wrappers.
- Copying the key from user space, and the hexadecimal digest that nothing uses.
- read_write.c, which the Makefile does not build.
- Mounts inside the lower tree of the same file system, and direct changes to the lower tree.
- Upper dentry and inode reference counts, which the VFS keeps: the model says when a release or an eviction may happen instead.
