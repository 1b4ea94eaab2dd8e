/** Mounting: what wrapfs_read_super acquires and rolls back, the option string,
    and the operation vectors that every inode of the mount then has. */
module MountOptions {
  import opened Common

  // ---------- wrapfs_read_super ----------

  /** Where mounting stops. */
  datatype MountOutcome =
    | NoDevice              // no device name
    | PathFails(errno: int) // the lower path cannot be resolved
    | NoInfo                // no memory for the superblock's private data
    | NoInode               // no inode for the root
    | StaleInode            // the lower inode cannot be grabbed for it
    | NoRoot                // no root dentry
    | NoRootInfo            // no private data for the root dentry
    | Mounts

  /** What mounting holds. `inode` counts references to the root's upper inode
      and `grabs` those to its lower inode; `fault` is a null dereference. */
  datatype Super = Super(path: int, active: int, info: bool, inode: int, grabs: int, root: bool, fault: bool)

  const NOTHING := Super(0, 0, false, 0, 0, false, false)

  /** iput on the upper inode: the last reference takes the lower inode's with it. */
  function IPut(s: Super): Super {
    var t := s.(inode := s.inode - 1);
    if t.inode == 0 then t.(grabs := t.grabs - 1) else t
  }

  /** Where a failing mount leaves its account uneven. */
  predicate Uneven(o: MountOutcome) {
    o.NoInode? || o.StaleInode? || o.NoRootInfo?
  }

  /** A failed mount gives back all it took iff it does not stop for want of the
      root's inode, whose lower inode is put though never taken; nor at a stale
      lower inode, for which the new upper inode is left behind; nor for want of
      the root dentry's private data, whose release finds none to lock. */
  method ReadSuper(o: MountOutcome) returns (err: int, s: Super)
    requires o.PathFails? ==> o.errno > 0
    ensures err == match o
                   case NoDevice => -EINVAL
                   case PathFails(e) => -e
                   case NoInode => -EACCES
                   case StaleInode => -ESTALE
                   case Mounts => 0
                   case _ => -ENOMEM
    ensures err == 0 ==> s == Super(1, 1, true, 1, 1, true, false)
    ensures err != 0 ==> (s == NOTHING <==> !Uneven(o))
  {
    s := NOTHING;
    if o.NoDevice? {
      return -EINVAL, s;
    }
    if o.PathFails? {
      return -o.errno, s;
    }
    s := s.(path := 1);
    err := 0;
    if o.NoInfo? {
      err := -ENOMEM;
    } else {
      s := s.(info := true, active := s.active + 1);
      if o.NoInode? {
        s := s.(grabs := s.grabs - 1);
        err := -EACCES;
      } else if o.StaleInode? {
        s := s.(inode := s.inode + 1);
        err := -ESTALE;
      } else {
        s := s.(inode := s.inode + 1, grabs := s.grabs + 1);
        if o.NoRoot? {
          err := -ENOMEM;
        } else {
          s := s.(root := true);
          if o.NoRootInfo? {
            err := -ENOMEM;
            s := IPut(s.(root := false, fault := true));
          } else {
            return;
          }
        }
        s := IPut(s);
      }
      s := s.(active := s.active - 1, info := false);
    }
    s := s.(path := s.path - 1);
  }

  // ---------- the option string ----------

  /** What match_token and match_int make of an option. */
  datatype Token = Debug(valid: bool) | Mmap | Unknown

  /** The table of main.c. `level` is what the kernel makes of the text after
      "debug=": None if it is no number, else whether it can be converted. */
  function MatchToken(level: string -> Option<bool>, t: string): Token {
    if "debug=" <= t && level(t[6..]).Some? then Debug(level(t[6..]).value)
    else if t == "mmap" then Mmap
    else Unknown
  }

  function Join(ts: seq<string>): string {
    if ts == [] then ""
    else if |ts| == 1 then ts[0]
    else ts[0] + "," + Join(ts[1..])
  }

  /** The options, as the string says: no option holds a comma. */
  ghost predicate SplitsTo(s: string, ts: seq<string>) {
    ts != [] && Join(ts) == s && forall k | 0 <= k < |ts| :: ',' !in ts[k]
  }

  lemma JoinCons(t: string, ts: seq<string>)
    requires ts != []
    ensures Join([t] + ts) == t + "," + Join(ts)
  {
  }

  /** A comma splits a string in one way only. */
  lemma SplitUnique(a: string, b: string, x: string, y: string)
    requires ',' !in a && ',' !in b && a + "," + x == b + "," + y
    ensures a == b && x == y
  {
    var s := a + "," + x;
    assert s[|a|] == ',' && s[|b|] == ',';
    assert forall i | 0 <= i < |a| :: s[i] == a[i];
    assert forall i | 0 <= i < |b| :: s[i] == b[i];
    assert a == s[..|a|] && b == s[..|b|];
    assert x == s[|a| + 1..] && y == s[|b| + 1..];
  }

  lemma {:induction false} OneSplit(s: string, ts: seq<string>, us: seq<string>)
    requires SplitsTo(s, ts) && SplitsTo(s, us)
    ensures ts == us
    decreases |ts|
  {
    if |ts| == 1 || |us| == 1 {
      CommaCount(ts);
      CommaCount(us);
      assert ts == [ts[0]] && us == [us[0]];
    } else {
      assert ts == [ts[0]] + ts[1..] && us == [us[0]] + us[1..];
      SplitUnique(ts[0], us[0], Join(ts[1..]), Join(us[1..]));
      OneSplit(Join(ts[1..]), ts[1..], us[1..]);
    }
  }

  lemma CommaCount(ts: seq<string>)
    requires ts != [] && forall k | 0 <= k < |ts| :: ',' !in ts[k]
    ensures ',' in Join(ts) <==> |ts| > 1
  {
  }

  function CommaAt(s: string): (i: nat)
    ensures i <= |s| && ',' !in s[..i] && (i < |s| ==> s[i] == ',')
  {
    if s == "" || s[0] == ',' then 0
    else
      var i := CommaAt(s[1..]);
      assert s[..i + 1] == [s[0]] + s[1..][..i];
      i + 1
  }

  /** The options of a string; by OneSplit there is no other way to split it. */
  function Split(s: string): (ts: seq<string>)
    ensures SplitsTo(s, ts)
    decreases |s|
  {
    var i := CommaAt(s);
    if i == |s| then [s]
    else
      var rest := Split(s[i + 1..]);
      JoinCons(s[..i], rest);
      assert s == s[..i] + "," + s[i + 1..];
      [s[..i]] + rest
  }

  /** strsep: the text before the first comma, and what follows it, if there is one. */
  method Strsep(s: string) returns (p: string, rest: Option<string>)
    ensures ',' !in p
    ensures rest.None? ==> p == s
    ensures rest.Some? ==> s == p + "," + rest.value
  {
    var i := 0;
    while i < |s| && s[i] != ','
      invariant 0 <= i <= |s| && ',' !in s[..i]
    {
      i := i + 1;
    }
    p := s[..i];
    rest := if i == |s| then None else Some(s[i + 1..]);
  }

  predicate Rejected(level: string -> Option<bool>, t: string) {
    t != "" && (MatchToken(level, t).Unknown? || MatchToken(level, t) == Debug(false))
  }

  /** An option "mmap" comes before the first rejected option; empty ones are skipped. */
  predicate EnablesAops(level: string -> Option<bool>, ts: seq<string>) {
    ts != [] && !Rejected(level, ts[0]) && (MatchToken(level, ts[0]).Mmap? || EnablesAops(level, ts[1..]))
  }

  /** The first rejected option, if any, is a malformed debug level. */
  predicate Invalid(level: string -> Option<bool>, ts: seq<string>) {
    ts != [] && (if Rejected(level, ts[0]) then MatchToken(level, ts[0]).Debug? else Invalid(level, ts[1..]))
  }

  /** What is accepted: nothing, "mmap", and "debug=" with a level. */
  lemma RejectedIff(level: string -> Option<bool>, t: string)
    ensures Rejected(level, t) <==>
            t != "" && t != "mmap" && !("debug=" <= t && level(t[6..]) == Some(true))
  {
    assert "debug="[0] == 'd' && "mmap"[0] == 'm';
  }

  lemma OnlyMmap(level: string -> Option<bool>, t: string)
    ensures MatchToken(level, t).Mmap? <==> t == "mmap"
  {
    assert "debug="[0] == 'd' && "mmap"[0] == 'm';
  }

  /** Option `k` is "mmap" and no option up to it is rejected. */
  ghost predicate MmapAt(level: string -> Option<bool>, ts: seq<string>, k: nat) {
    k < |ts| && ts[k] == "mmap" && forall j :: 0 <= j <= k ==> !Rejected(level, ts[j])
  }

  /** An option that is rejected ends the parse, silently if it is unknown. */
  lemma {:induction false} EnablesAopsMeans(level: string -> Option<bool>, ts: seq<string>)
    ensures EnablesAops(level, ts) <==> exists k: nat :: MmapAt(level, ts, k)
  {
    if ts != [] {
      var rest := ts[1..];
      OnlyMmap(level, ts[0]);
      EnablesAopsMeans(level, rest);
      if EnablesAops(level, ts) {
        if ts[0] == "mmap" {
          assert MmapAt(level, ts, 0);
        } else {
          var k: nat :| MmapAt(level, rest, k);
          assert MmapAt(level, ts, k + 1);
        }
      }
      if k: nat :| MmapAt(level, ts, k) {
        assert !Rejected(level, ts[0]);
        if k > 0 {
          assert forall j :: 0 <= j <= k - 1 ==> rest[j] == ts[j + 1];
          assert MmapAt(level, rest, k - 1);
        }
      }
    }
  }

  /** wrapfs_parse_mount_options. Without a string nothing is changed. */
  method ParseMountOptions(options: Option<string>, aops: bool, level: string -> Option<bool>)
      returns (err: int, enabled: bool)
    ensures options.None? ==> err == -EINVAL && enabled == aops
    ensures options.Some? ==> (enabled <==> EnablesAops(level, Split(options.value)))
    ensures options.Some? ==> err == if Invalid(level, Split(options.value)) then -EINVAL else 0
  {
    if options.None? {
      return -EINVAL, aops;
    }
    enabled, err := false, 0;
    var left := options;
    ghost var ts := Split(options.value);
    ghost var us := ts;
    while left.Some?
      invariant left.Some? ==> SplitsTo(left.value, us)
      invariant left.None? ==> us == []
      invariant EnablesAops(level, ts) <==> enabled || EnablesAops(level, us)
      invariant Invalid(level, ts) <==> Invalid(level, us)
      invariant err == 0
      decreases |us|
    {
      var p, rest := Strsep(left.value);
      FirstOption(left.value, us, p, rest);
      left := rest;
      if p != "" {
        match MatchToken(level, p)
        case Debug(valid) =>
          if !valid {
            return -EINVAL, enabled;
          }
        case Mmap =>
          enabled := true;
        case Unknown =>
          return 0, enabled;
      }
      us := us[1..];
    }
  }

  /** What strsep returns is the first option, and leaves the others. */
  lemma FirstOption(s: string, us: seq<string>, p: string, rest: Option<string>)
    requires SplitsTo(s, us) && ',' !in p
    requires rest.None? ==> p == s
    requires rest.Some? ==> s == p + "," + rest.value
    ensures us[0] == p
    ensures rest.None? ==> us[1..] == []
    ensures rest.Some? ==> SplitsTo(rest.value, us[1..])
  {
    if rest.Some? {
      assert s[|p|] == ',';
    }
    CommaCount(us);
    if |us| > 1 {
      assert us == [us[0]] + us[1..];
      SplitUnique(us[0], p, Join(us[1..]), rest.value);
    }
  }

  // ---------- operation vectors ----------

  datatype Kind = Directory | File | Special

  /** Special inodes get the kernel's own file operations, over the mapping they
      were given as any other inode but a directory. */
  datatype Vectors = DirectoryOps | SpecialOps(wrapfsAops: bool) | FileOps(mmapFops: bool, wrapfsAops: bool)

  /** A mount: whether aops are enabled, and the vectors of its inodes. */
  datatype Vfs = Vfs(aops: bool, inodes: map<nat, Vectors>)

  datatype Event =
    | NewInode(i: nat, kind: Kind)   // wrapfs_iget
    | MapFile(i: nat)                // wrapfs_mmap rewrites a_ops
    | EvictInode(i: nat)
    | Remount(flags: nat)            // accepted or not, it touches neither

  function React(m: Vfs, e: Event): Vfs {
    match e
    case NewInode(i, kind) =>
      if i in m.inodes then m
      else
        var ops := match kind
          case Directory => DirectoryOps
          case Special => SpecialOps(m.aops)
          case File => FileOps(m.aops, m.aops);
        m.(inodes := m.inodes[i := ops])
    case MapFile(i) =>
      if i in m.inodes && m.inodes[i].FileOps?
      then m.(inodes := m.inodes[i := m.inodes[i].(wrapfsAops := m.aops)]) else m
    case EvictInode(i) => m.(inodes := m.inodes - {i})
    case Remount(_) => m
  }

  function ReactAll(m: Vfs, es: seq<Event>): Vfs
    decreases |es|
  {
    if es == [] then m else ReactAll(React(m, es[0]), es[1..])
  }

  /** wrapfs_mount: the root inode is made before the options are known, but a
      directory has no vector that depends on them. */
  function Mounted(root: nat, enabled: bool): Vfs {
    var early := React(Vfs(false, map[]), NewInode(root, Directory));
    early.(aops := enabled)
  }

  ghost predicate Uniform(m: Vfs) {
    forall i | i in m.inodes && !m.inodes[i].DirectoryOps? ::
      m.inodes[i].wrapfsAops == m.aops && (m.inodes[i].FileOps? ==> m.inodes[i].mmapFops == m.aops)
  }

  /** The kinds of the inodes there are. */
  function KindsAfter(kinds: map<nat, Kind>, es: seq<Event>): map<nat, Kind>
    decreases |es|
  {
    if es == [] then kinds else KindsAfter(KindsNext(kinds, es[0]), es[1..])
  }

  function KindsNext(kinds: map<nat, Kind>, e: Event): map<nat, Kind> {
    match e
    case NewInode(i, kind) => if i in kinds then kinds else kinds[i := kind]
    case EvictInode(i) => kinds - {i}
    case _ => kinds
  }

  predicate OfKind(v: Vectors, kind: Kind) {
    (kind.Directory? <==> v.DirectoryOps?) && (kind.File? <==> v.FileOps?) && (kind.Special? <==> v.SpecialOps?)
  }

  /** Every inode has the vectors of its kind, and keeps them until it is evicted. */
  lemma {:induction false} VectorsByKind(m: Vfs, kinds: map<nat, Kind>, es: seq<Event>)
    requires m.inodes.Keys == kinds.Keys && forall i | i in kinds :: OfKind(m.inodes[i], kinds[i])
    ensures
      var t, now := ReactAll(m, es), KindsAfter(kinds, es);
      t.inodes.Keys == now.Keys && forall i | i in now :: OfKind(t.inodes[i], now[i])
    decreases |es|
  {
    if es != [] {
      VectorsByKind(React(m, es[0]), KindsNext(kinds, es[0]), es[1..]);
    }
  }

  lemma {:induction false} UniformRun(m: Vfs, es: seq<Event>)
    requires Uniform(m)
    ensures Uniform(ReactAll(m, es)) && ReactAll(m, es).aops == m.aops
    decreases |es|
  {
    if es != [] {
      UniformRun(React(m, es[0]), es[1..]);
    }
  }

  // ---------- wrapfs_mount ----------

  /** Whether the options, if there are any, enable aops. */
  predicate Enables(level: string -> Option<bool>, options: Option<string>) {
    options.Some? && EnablesAops(level, Split(options.value))
  }

  /** "mmap" stands among the options before the first that is rejected. */
  ghost predicate AsksForMmap(level: string -> Option<bool>, options: Option<string>) {
    options.Some? && exists k: nat :: MmapAt(level, Split(options.value), k)
  }

  lemma EnablesIff(level: string -> Option<bool>, options: Option<string>)
    ensures Enables(level, options) <==> AsksForMmap(level, options)
  {
    if options.Some? {
      EnablesAopsMeans(level, Split(options.value));
    }
  }

  /** For the whole mount, whatever happens, every file has the mmap operations,
      and every inode but a directory the wrapfs address-space operations, iff
      the options hold "mmap" before the first one that is rejected. */
  lemma VectorsUniform(root: nat, level: string -> Option<bool>, options: Option<string>, es: seq<Event>, i: nat)
    requires
      var kinds := KindsAfter(map[root := Directory], es);
      i in kinds && !kinds[i].Directory?
    ensures
      var kind, m := KindsAfter(map[root := Directory], es)[i], ReactAll(Mounted(root, Enables(level, options)), es);
      && i in m.inodes && OfKind(m.inodes[i], kind)
      && (m.inodes[i].wrapfsAops <==> AsksForMmap(level, options))
      && (kind.File? ==> m.inodes[i].mmapFops == m.inodes[i].wrapfsAops)
  {
    var start := Mounted(root, Enables(level, options));
    VectorsByKind(start, map[root := Directory], es);
    UniformRun(start, es);
    EnablesIff(level, options);
  }

  /** What mount_nodev returns: never null, but an error pointer when
      wrapfs_read_super fails. */
  datatype MountResult = Null | ErrorPointer(err: int) | Root

  /** wrapfs_mount, over an upper inode `root`. Its test for null lets an error
      pointer through, and that is dereferenced (None) after every failed mount. */
  method WrapfsMount(o: MountOutcome, options: Option<string>, level: string -> Option<bool>, root: nat)
      returns (s: Super, vfs: Option<Vfs>)
    requires o.PathFails? ==> o.errno > 0
    ensures vfs.Some? <==> o.Mounts?
    ensures vfs.Some? ==> s == Super(1, 1, true, 1, 1, true, false)
    ensures vfs.Some? ==> vfs.value == Mounted(root, Enables(level, options))
    ensures vfs.None? ==> (s == NOTHING <==> !Uneven(o))
  {
    var err;
    err, s := ReadSuper(o);
    var early := React(Vfs(false, map[]), NewInode(root, Directory));
    var d := if err == 0 then Root else ErrorPointer(err);
    if !d.Null? {
      if !d.Root? {
        return s, None;
      }
      var parsed, enabled := ParseMountOptions(options, early.aops, level);
      early := early.(aops := enabled);
    }
    vfs := Some(early);
  }
}
