/** What runs preserve: well-formedness, the paths an operation does not name, and reachability. */
module History {
  import opened Geometry
  import opened VolumeState
  import opened Dir
  import opened Directory
  import opened Tree
  import opened Mirror
  import opened Namespace
  import opened Removal
  import opened Paths
  import opened Run

  /** The directory entries an operation names. */
  ghost function Names(op: Op): set<Key> {
    match op
    case Rename(d, name, e, to) => {(d, name), (e, to)}
    case Resize(_, _) => {}
    case Replace(_, _) => {}
    case _ => {(op.parent, op.name)}
  }

  // --- well-formedness -------------------------------------------------------

  lemma ClearedOk(t: Tree, d: nat, name: Name)
    requires TreeOk(t)
    requires (d, name) in t.links && t.links[(d, name)] in t.parents ==> EmptyDir(t, t.links[(d, name)])
    ensures TreeOk(Cleared(t, d, name))
  {
    hide TreeOk, EmptyDir, DropDir, DropFile;
    if (d, name) in t.links {
      if t.links[(d, name)] in t.parents { DropDirOk(t, d, name); } else { DropFileOk(t, d, name); }
    }
  }

  lemma RenamedOk(t: Tree, d: nat, name: Name, e: nat, to: Name)
    requires TreeOk(t) && e in t.parents && PlainName(to)
    requires Moot(t, d, name, e, to) || (Renamable(t, d, name, e, to) && (d, name) in Cleared(t, e, to).links)
    ensures TreeOk(Renamed(t, d, name, e, to))
  {
    hide TreeOk, EmptyDir, DropDir, DropFile, Cleared, Move;
    if !Moot(t, d, name, e, to) {
      ClearedKeeps(t, d, name, e, to);
      ClearedOk(t, e, to);
      MoveOk(Cleared(t, e, to), d, name, e, to);
    }
  }

  /** Every operation keeps the namespace well-formed. */
  lemma StepOk(t: Tree, op: Op, u: Tree)
    requires TreeOk(t) && Step(t, op, u)
    ensures TreeOk(u)
  {
    hide TreeOk, EmptyDir, DropDir, DropFile, Renamed, Moot, Renamable, Cleared, Link, Fill, NewFile, NewDir;
    match op
    case Create(d, name, kind) => AddedFileOk(t, d, name, kind, [], u);
    case MakeDir(d, name) => var n: nat :| n !in t.kinds && u == NewDir(t, d, name, n); NewDirOk(t, d, name, n);
    case MakeSymlink(d, name, target) => AddedFileOk(t, d, name, Symlink, target, u);
    case MakeNode(d, name, kind, major, minor) =>
      var slots := DeviceSlots(major, minor);
      var n: nat :| n !in t.kinds && u == NewNode(t, d, name, n, kind, slots);
      NewNodeOk(t, d, name, n, kind, slots);
    case MakeLink(d, name, n) => LinkOk(t, d, name, n);
    case RemoveFile(d, name) => DropFileOk(t, d, name);
    case RemoveDir(d, name) => DropDirOk(t, d, name);
    case Rename(d, name, e, to) => RenamedOk(t, d, name, e, to);
    case Resize(n, size) => FilledTree(t, n, Resized(t.bytes[n], size));
    case Replace(n, data) => FilledTree(t, n, data);
  }

  lemma AddedFileOk(t: Tree, d: nat, name: Name, kind: FileType, data: seq<byte>, u: Tree)
    requires TreeOk(t) && AddsFile(t, d, name, kind, data, u)
    ensures TreeOk(u)
  {
    hide TreeOk, NewFile;
    var n: nat :| n !in t.kinds && u == NewFile(t, d, name, n, kind, data);
    NewFileOk(t, d, name, n, kind, data);
  }

  // --- other paths -----------------------------------------------------------

  /** Files other than the one written hold the same bytes, and devices the same numbers, wherever both trees have them. */
  ghost predicate SameBytes(t: Tree, u: Tree, except: set<nat>) {
    && (forall m | m in t.bytes && m in u.bytes && m !in except :: u.bytes[m] == t.bytes[m])
    && (forall m | m in t.devices && m in u.bytes && m !in except :: m in u.devices && u.devices[m] == t.devices[m])
  }

  ghost function WrittenBy(op: Op): set<nat> {
    match op
    case Resize(n, _) => {n}
    case Replace(n, _) => {n}
    case _ => {}
  }

  lemma DropDirAgrees(t: Tree, d: nat, name: Name)
    requires TreeOk(t) && (d, name) in t.links && t.links[(d, name)] in t.parents
    ensures t.links[(d, name)] != ROOT && Agree(t, DropDir(t, d, name), {(d, name)}, {t.links[(d, name)]})
    ensures SameBytes(t, DropDir(t, d, name), {})
  {
    hide Keys, NamesOk, BytesOk, LinksOk;
    NamedBy(t, d, name);
    OnlyName(t, d, name);
  }

  lemma OnlyName(t: Tree, d: nat, name: Name)
    requires (d, name) in t.links && Keys(t, t.links[(d, name)]) == {(d, name)}
    ensures forall k | k in t.links && k != (d, name) :: t.links[k] != t.links[(d, name)]
  {
    forall k | k in t.links && k != (d, name) ensures t.links[k] != t.links[(d, name)] {
      assert k !in Keys(t, t.links[(d, name)]);
    }
  }

  lemma DropFileAgrees(t: Tree, d: nat, name: Name)
    requires (d, name) in t.links && t.links[(d, name)] !in t.parents
    ensures Agree(t, DropFile(t, d, name), {(d, name)}, {}) && SameBytes(t, DropFile(t, d, name), {})
  {
    hide Keys;
  }

  lemma NewFileAgrees(t: Tree, d: nat, name: Name, n: nat, kind: FileType, data: seq<byte>)
    requires TreeOk(t) && n !in t.kinds
    ensures Agree(t, NewFile(t, d, name, n, kind, data), {(d, name)}, {}) && SameBytes(t, NewFile(t, d, name, n, kind, data), {})
  {
    hide NamesOk, LinksOk;
  }

  lemma NewNodeAgrees(t: Tree, d: nat, name: Name, n: nat, kind: FileType, slots: seq<nat>)
    requires TreeOk(t) && n !in t.kinds
    ensures Agree(t, NewNode(t, d, name, n, kind, slots), {(d, name)}, {}) && SameBytes(t, NewNode(t, d, name, n, kind, slots), {})
  {
    hide NamesOk, LinksOk;
  }

  lemma NewDirAgrees(t: Tree, d: nat, name: Name, n: nat)
    requires TreeOk(t) && n !in t.kinds
    ensures n != ROOT && Agree(t, NewDir(t, d, name, n), {(d, name)}, {n}) && SameBytes(t, NewDir(t, d, name, n), {})
  {
    hide NamesOk;
  }

  /** `path` leads to the same inode in both trees, and that file's bytes are the same. */
  ghost predicate Keeps(t: Tree, u: Tree, path: Path, except: set<nat>) {
    Walk(u, ROOT, path) == Walk(t, ROOT, path) && SameBytes(t, u, except)
  }

  lemma RenameKeeps(t: Tree, d: nat, name: Name, e: nat, to: Name, path: Path)
    requires TreeOk(t) && e in t.parents && PlainPath(path) && !Crosses(t, ROOT, path, {(d, name), (e, to)})
    requires Moot(t, d, name, e, to) || (Renamable(t, d, name, e, to) && (d, name) in Cleared(t, e, to).links)
    ensures Keeps(t, Renamed(t, d, name, e, to), path, {})
  {
    hide TreeOk, EmptyDir, DropDir, DropFile, Agree, Crosses, Walk, Move;
    if !Moot(t, d, name, e, to) {
      ClearedKeeps(t, d, name, e, to);
      var u, keys := Cleared(t, e, to), {(d, name), (e, to)};
      ClearedAgrees(t, d, name, e, to);
      WalkAgrees(t, u, keys, GoneBy(t, e, to), ROOT, path);
      MoveAgrees(u, d, name, e, to);
      WalkAgrees(u, Move(u, d, name, e, to), keys, {}, ROOT, path);
      ClearedOk(t, e, to);
      MovedBytes(u, d, name, e, to);
    }
  }

  ghost function GoneBy(t: Tree, d: nat, name: Name): set<nat> {
    if (d, name) in t.links && t.links[(d, name)] in t.parents then {t.links[(d, name)]} else {}
  }

  lemma ClearedAgrees(t: Tree, d: nat, name: Name, e: nat, to: Name)
    requires TreeOk(t)
    ensures Agree(t, Cleared(t, e, to), {(d, name), (e, to)}, GoneBy(t, e, to)) && ROOT !in GoneBy(t, e, to)
    ensures SameBytes(t, Cleared(t, e, to), {})
  {
    hide DropDir, DropFile, TreeOk;
    if (e, to) in t.links && t.links[(e, to)] in t.parents {
      DropDirAgrees(t, e, to);
    } else if (e, to) in t.links {
      DropFileAgrees(t, e, to);
    } else {
      LinksExist(t);
    }
  }

  lemma LinksExist(t: Tree)
    requires TreeOk(t)
    ensures forall k | k in t.links :: t.links[k] in t.kinds
  {
    hide NamesOk, DirsOk, BytesOk;
  }

  lemma MovedBytes(t: Tree, d: nat, name: Name, e: nat, to: Name)
    requires (d, name) in t.links
    requires TreeOk(t)
    ensures SameBytes(t, Move(t, d, name, e, to), {}) && forall m | m in Move(t, d, name, e, to).bytes :: m in t.bytes
  {
  }

  /** A path that does not pass a name the operation names keeps its inode; its file keeps its bytes unless written. */
  lemma StepKeeps(t: Tree, op: Op, u: Tree, path: Path)
    requires TreeOk(t) && Step(t, op, u) && PlainPath(path) && !Crosses(t, ROOT, path, Names(op))
    ensures Keeps(t, u, path, WrittenBy(op))
  {
    hide TreeOk, EmptyDir, DropDir, DropFile, Renamed, Moot, Renamable, Cleared, NewFile, NewDir, Agree, Crosses, Walk, Resized;
    match op
    case Create(d, name, kind) => AddKeeps(t, d, name, kind, [], u, path);
    case MakeDir(d, name) =>
      var n: nat :| n !in t.kinds && u == NewDir(t, d, name, n);
      NewDirAgrees(t, d, name, n);
      WalkAgrees(t, u, {(d, name)}, {n}, ROOT, path);
    case MakeSymlink(d, name, target) => AddKeeps(t, d, name, Symlink, target, u, path);
    case MakeNode(d, name, kind, major, minor) =>
      var slots := DeviceSlots(major, minor);
      var n: nat :| n !in t.kinds && u == NewNode(t, d, name, n, kind, slots);
      NewNodeAgrees(t, d, name, n, kind, slots);
      WalkAgrees(t, u, {(d, name)}, {}, ROOT, path);
    case MakeLink(d, name, n) =>
      assert Agree(t, u, {(d, name)}, {}) by { LinkAgrees(t, d, name, n); }
      WalkAgrees(t, u, {(d, name)}, {}, ROOT, path);
    case RemoveFile(d, name) =>
      DropFileAgrees(t, d, name);
      WalkAgrees(t, u, {(d, name)}, {}, ROOT, path);
    case RemoveDir(d, name) =>
      DropDirAgrees(t, d, name);
      WalkAgrees(t, u, {(d, name)}, {t.links[(d, name)]}, ROOT, path);
    case Rename(d, name, e, to) => RenameKeeps(t, d, name, e, to, path);
    case Resize(n, size) => FillAgrees(t, n, Resized(t.bytes[n], size)); WalkAgrees(t, u, {}, {}, ROOT, path);
    case Replace(n, data) => FillAgrees(t, n, data); WalkAgrees(t, u, {}, {}, ROOT, path);
  }

  lemma LinkAgrees(t: Tree, d: nat, name: Name, n: nat)
    ensures Agree(t, Link(t, d, name, n), {(d, name)}, {})
  {
  }

  lemma FillAgrees(t: Tree, n: nat, data: seq<byte>)
    ensures Agree(t, Fill(t, n, data), {}, {})
  {
  }

  lemma AddKeeps(t: Tree, d: nat, name: Name, kind: FileType, data: seq<byte>, u: Tree, path: Path)
    requires TreeOk(t) && AddsFile(t, d, name, kind, data, u) && PlainPath(path) && !Crosses(t, ROOT, path, {(d, name)})
    ensures Keeps(t, u, path, {})
  {
    hide TreeOk, Agree, Crosses, Walk;
    var n: nat :| n !in t.kinds && u == NewFile(t, d, name, n, kind, data);
    NewFileAgrees(t, d, name, n, kind, data);
    WalkAgrees(t, u, {(d, name)}, {}, ROOT, path);
  }

  /** Over a whole run, a file no operation names or writes stays where it was with the bytes it had, a device with its numbers. */
  lemma {:induction false} RunKeeps(ts: seq<Tree>, ops: seq<Op>, path: Path, m: nat)
    requires Trace(ts, ops) && TreeOk(ts[0]) && PlainPath(path) && Walk(ts[0], ROOT, path) == Some(m) && m in ts[0].bytes
    requires forall i | 0 <= i < |ops| :: !Crosses(ts[i], ROOT, path, Names(ops[i])) && m !in WrittenBy(ops[i])
    ensures TreeOk(ts[|ops|]) && Walk(ts[|ops|], ROOT, path) == Some(m)
    ensures m in ts[|ops|].bytes && ts[|ops|].bytes[m] == ts[0].bytes[m]
    ensures m in ts[0].devices ==> m in ts[|ops|].devices && ts[|ops|].devices[m] == ts[0].devices[m]
    decreases |ops|
  {
    hide TreeOk, Step, Crosses, Walk;
    if ops != [] {
      var k := |ops| - 1;
      assert Trace(ts[..k + 1], ops[..k]) by { Shorter(ts, ops); }
      RunKeeps(ts[..k + 1], ops[..k], path, m);
      StepKeeps(ts[k], ops[k], ts[k + 1], path);
      StepOk(ts[k], ops[k], ts[k + 1]);
      StillFile(ts[k], ops[k], ts[k + 1], path, m);
    }
  }

  lemma Shorter(ts: seq<Tree>, ops: seq<Op>)
    requires Trace(ts, ops) && ops != []
    ensures Trace(ts[..|ops|], ops[..|ops| - 1])
  {
    hide Step;
  }

  /** An inode that exists before and after an operation is not turned from a file into a directory. */
  lemma StillFile(t: Tree, op: Op, u: Tree, path: Path, m: nat)
    requires TreeOk(t) && TreeOk(u) && Step(t, op, u) && Walk(u, ROOT, path) == Some(m) && m in t.bytes
    ensures m in u.bytes
  {
    hide TreeOk, Step, Walk;
    WalkExists(u, ROOT, path);
    FileOrDir(t, m);
    FileOrDir(u, m);
    if m in u.parents { DirsGrowBy(t, op, u, m); }
  }

  lemma FileOrDir(t: Tree, m: nat)
    requires TreeOk(t)
    ensures m in t.bytes <==> m in t.kinds && m !in t.parents
    ensures m in t.parents ==> m in t.kinds
  {
    hide NamesOk, LinksOk;
  }

  lemma DirsGrowBy(t: Tree, op: Op, u: Tree, m: nat)
    requires TreeOk(t) && Step(t, op, u) && m in t.kinds && m in u.parents
    ensures m in t.parents
  {
    hide TreeOk, EmptyDir, Moot, Renamable, Resized, Keys, Renamed, Cleared, DeviceSlots;
    if op.Rename? { RenamedDirs(t, op.parent, op.name, op.toParent, op.toName, m); }
  }

  lemma RenamedDirs(t: Tree, d: nat, name: Name, e: nat, to: Name, m: nat)
    requires Moot(t, d, name, e, to) || (d, name) in Cleared(t, e, to).links
    requires m in Renamed(t, d, name, e, to).parents
    ensures m in t.parents
  {
    hide Moot, Cleared, Move;
    ClearedDirs(t, e, to, m);
    if !Moot(t, d, name, e, to) { MovedDirectories(Cleared(t, e, to), d, name, e, to, m); }
  }

  lemma ClearedDirs(t: Tree, d: nat, name: Name, m: nat)
    ensures m in Cleared(t, d, name).parents ==> m in t.parents
  {
    hide Keys;
  }

  lemma MovedDirectories(t: Tree, sd: nat, sname: Name, dd: nat, dname: Name, m: nat)
    requires (sd, sname) in t.links
    ensures m in Move(t, sd, sname, dd, dname).parents <==> m in t.parents
  {
  }

  // --- reachability ----------------------------------------------------------

  /** The `k`-fold parent of `d`. */
  ghost function Up(t: Tree, d: nat, k: nat): nat
    decreases k
  {
    if k == 0 then d else if d in t.parents then Up(t, t.parents[d], k - 1) else d
  }

  /** Directory `a` is `d` or above it. */
  ghost predicate Below(t: Tree, d: nat, a: nat) { exists k: nat :: Up(t, d, k) == a }

  /** Every directory reaches the root by following "..". */
  ghost predicate Rooted(t: Tree) { forall d | d in t.parents :: Below(t, d, ROOT) }

  lemma {:induction false} UpLast(t: Tree, d: nat, k: nat)
    requires TreeOk(t) && d in t.parents
    ensures Up(t, d, k) in t.parents && Up(t, d, k + 1) == t.parents[Up(t, d, k)]
    decreases k
  {
    hide NamesOk, LinksOk, BytesOk;
    assert t.parents[d] in t.parents.Values;
    if k != 0 { UpLast(t, t.parents[d], k - 1); }
  }

  /** From the root one stays at the root. */
  lemma {:induction false} UpRoot(t: Tree, k: nat)
    requires TreeOk(t)
    ensures Up(t, ROOT, k) == ROOT
    decreases k
  {
    hide NamesOk, LinksOk, BytesOk;
    if k != 0 { UpRoot(t, k - 1); }
  }

  lemma {:induction false} UpUp(t: Tree, d: nat, j: nat, k: nat)
    requires TreeOk(t) && d in t.parents
    ensures Up(t, Up(t, d, j), k) == Up(t, d, j + k)
    decreases j
  {
    hide NamesOk, LinksOk, BytesOk;
    assert t.parents[d] in t.parents.Values;
    if j != 0 { UpUp(t, t.parents[d], j - 1, k); }
  }

  /** `u` is `t` with directory `n` hung under `p`. */
  ghost predicate Rehung(t: Tree, u: Tree, n: nat, p: nat) {
    n in t.parents && n != ROOT && p in t.parents && u.parents == t.parents[n := p]
  }

  /** Upward paths that do not pass `n` are the same in both trees. */
  lemma {:induction false} UpSame(t: Tree, u: Tree, n: nat, p: nat, d: nat, k: nat)
    requires TreeOk(t) && TreeOk(u) && Rehung(t, u, n, p) && d in t.parents && forall j: nat | j < k :: Up(t, d, j) != n
    ensures Up(u, d, k) == Up(t, d, k)
    decreases k
  {
    hide TreeOk;
    if k != 0 {
      UpSame(t, u, n, p, d, k - 1);
      UpLast(t, d, k - 1);
      UpLast(u, d, k - 1);
    }
  }

  /** The first time, if any, that the way up from `d` meets `n` within `k` steps. */
  lemma {:induction false} FirstMeet(t: Tree, d: nat, n: nat, k: nat) returns (j: nat)
    ensures j <= k && forall i: nat | i < j :: Up(t, d, i) != n
    ensures j < k ==> Up(t, d, j) == n
    decreases k
  {
    if k == 0 {
      j := 0;
    } else {
      j := FirstMeet(t, d, n, k - 1);
      if j == k - 1 && Up(t, d, j) != n { j := k; }
    }
  }

  lemma RehungBelow(t: Tree, u: Tree, n: nat, p: nat, d: nat)
    requires TreeOk(t) && TreeOk(u) && Rehung(t, u, n, p) && Rooted(t) && !Below(t, p, n) && d in t.parents
    ensures Below(u, d, ROOT)
  {
    hide TreeOk;
    assert Below(t, p, ROOT);
    var kp: nat :| Up(t, p, kp) == ROOT;
    UpSame(t, u, n, p, p, kp);
    var kd: nat :| Up(t, d, kd) == ROOT;
    var j := FirstMeet(t, d, n, kd);
    UpSame(t, u, n, p, d, j);
    if j < kd {
      UpLast(u, d, j);
      UpUp(u, d, j + 1, kp);
    }
  }

  /** Inside a loop that hangs under itself nothing reaches the root. */
  lemma {:induction false} Looped(t: Tree, u: Tree, n: nat, p: nat, k: nat, i: nat) returns (j: nat)
    requires TreeOk(t) && TreeOk(u) && Rehung(t, u, n, p) && Up(t, p, k) == n && forall j: nat | j < k :: Up(t, p, j) != n
    ensures j <= k && Up(u, p, i) == Up(t, p, j)
    decreases i
  {
    hide TreeOk;
    if i == 0 {
      j := 0;
    } else {
      var l := Looped(t, u, n, p, k, i - 1);
      UpLast(u, p, i - 1);
      UpLast(t, p, l);
      j := if l == k then 0 else l + 1;
    }
  }

  lemma LoopAvoidsRoot(t: Tree, u: Tree, n: nat, p: nat, k: nat, i: nat)
    requires TreeOk(t) && TreeOk(u) && Rehung(t, u, n, p) && Up(t, p, k) == n && forall j: nat | j < k :: Up(t, p, j) != n
    ensures Up(u, p, i) != ROOT
  {
    hide TreeOk;
    var j := Looped(t, u, n, p, k, i);
    if Up(t, p, j) == ROOT {
      UpUp(t, p, j, k - j);
      UpRoot(t, k - j);
    }
  }

  /** Moving a directory keeps every directory reachable exactly when it does not go below itself. */
  lemma RehungRooted(t: Tree, u: Tree, n: nat, p: nat)
    requires TreeOk(t) && TreeOk(u) && Rehung(t, u, n, p) && Rooted(t)
    ensures Rooted(u) <==> !Below(t, p, n)
  {
    hide TreeOk, Below;
    if Below(t, p, n) {
      LoopUnrooted(t, u, n, p);
    } else {
      forall d | d in u.parents ensures Below(u, d, ROOT) { RehungBelow(t, u, n, p, d); }
    }
  }

  lemma LoopUnrooted(t: Tree, u: Tree, n: nat, p: nat)
    requires TreeOk(t) && TreeOk(u) && Rehung(t, u, n, p) && Below(t, p, n)
    ensures p in u.parents && !Below(u, p, ROOT)
  {
    hide TreeOk;
    var k0: nat :| Up(t, p, k0) == n;
    var k := FirstMeet(t, p, n, k0);
    forall i: nat ensures Up(u, p, i) != ROOT { LoopAvoidsRoot(t, u, n, p, k, i); }
  }

  /** Renaming keeps all directories reachable exactly when it does not move one below itself. */
  lemma MoveRooted(t: Tree, sd: nat, sname: Name, dd: nat, dname: Name)
    requires TreeOk(t) && Rooted(t) && (sd, sname) in t.links && (dd, dname) !in t.links && dd in t.parents && PlainName(dname)
    ensures var n := t.links[(sd, sname)]; Rooted(Move(t, sd, sname, dd, dname)) <==> !(n in t.parents && Below(t, dd, n))
  {
    hide TreeOk, Rooted, Below;
    var n, u := t.links[(sd, sname)], Move(t, sd, sname, dd, dname);
    MoveOk(t, sd, sname, dd, dname);
    if n in t.parents {
      NamedBy(t, sd, sname);
      RehungRooted(t, u, n, dd);
    } else {
      SameParents(t, u);
    }
  }

  lemma {:induction false} UpEqual(t: Tree, u: Tree, d: nat, k: nat)
    requires u.parents == t.parents
    ensures Up(u, d, k) == Up(t, d, k)
    decreases k
  {
    if k != 0 && d in t.parents { UpEqual(t, u, t.parents[d], k - 1); }
  }

  lemma SameParents(t: Tree, u: Tree)
    requires u.parents == t.parents && Rooted(t)
    ensures Rooted(u)
  {
    forall d | d in u.parents ensures Below(u, d, ROOT) {
      assert Below(t, d, ROOT);
      var k: nat :| Up(t, d, k) == ROOT;
      UpEqual(t, u, d, k);
    }
  }

  /** `u` has the directories of `t` except `n`, which is no directory's parent, or one more. */
  ghost predicate Twig(t: Tree, u: Tree, n: nat) {
    && (forall d | d in t.parents && d != n :: d in u.parents && u.parents[d] == t.parents[d] && t.parents[d] != n)
    && (forall d | d in u.parents && d != n :: d in t.parents)
  }

  lemma {:induction false} UpTwig(t: Tree, u: Tree, n: nat, d: nat, k: nat)
    requires TreeOk(t) && Twig(t, u, n) && d in t.parents && d != n
    ensures Up(u, d, k) == Up(t, d, k)
    decreases k
  {
    hide NamesOk, LinksOk, BytesOk;
    assert t.parents[d] in t.parents.Values;
    if k != 0 { UpTwig(t, u, n, t.parents[d], k - 1); }
  }

  lemma TwigBelow(t: Tree, u: Tree, n: nat, d: nat, a: nat)
    requires TreeOk(t) && Twig(t, u, n) && d in t.parents && d != n
    ensures Below(t, d, a) <==> Below(u, d, a)
  {
    hide TreeOk, Twig;
    if Below(t, d, a) {
      var k: nat :| Up(t, d, k) == a;
      UpTwig(t, u, n, d, k);
    }
    if Below(u, d, a) {
      var k: nat :| Up(u, d, k) == a;
      UpTwig(t, u, n, d, k);
    }
  }

  lemma DropDirTwig(t: Tree, d: nat, name: Name)
    requires TreeOk(t) && (d, name) in t.links && t.links[(d, name)] in t.parents && EmptyDir(t, t.links[(d, name)])
    ensures Twig(t, DropDir(t, d, name), t.links[(d, name)]) && t.links[(d, name)] !in DropDir(t, d, name).parents
    ensures Rooted(t) ==> Rooted(DropDir(t, d, name))
  {
    hide TreeOk, Below, Keys, Children;
    var n, u := t.links[(d, name)], DropDir(t, d, name);
    NamedBy(t, d, name);
    NoSubdirs(t, n);
    assert Twig(t, u, n);
    if Rooted(t) {
      forall x | x in u.parents ensures Below(u, x, ROOT) { TwigBelow(t, u, n, x, ROOT); }
    }
  }

  lemma NewDirRooted(t: Tree, d: nat, name: Name, n: nat)
    requires TreeOk(t) && Rooted(t) && d in t.parents && n !in t.kinds
    ensures Rooted(NewDir(t, d, name, n))
  {
    hide NamesOk, LinksOk, BytesOk;
    var u := NewDir(t, d, name, n);
    assert Twig(t, u, n);
    forall x | x in u.parents ensures Below(u, x, ROOT) {
      if x != n { TwigBelow(t, u, n, x, ROOT); } else { NewDirBelow(t, u, n, d); }
    }
  }

  lemma NewDirBelow(t: Tree, u: Tree, n: nat, d: nat)
    requires TreeOk(t) && Twig(t, u, n) && n in u.parents && u.parents[n] == d && d in t.parents && d != n && Below(t, d, ROOT)
    ensures Below(u, n, ROOT)
  {
    hide TreeOk, Twig;
    var k: nat :| Up(t, d, k) == ROOT;
    UpTwig(t, u, n, d, k);
    assert Up(u, n, k + 1) == ROOT;
  }

  /** The operation would hang a directory below itself. */
  ghost predicate Swallows(t: Tree, op: Op) {
    op.Rename? && !Moot(t, op.parent, op.name, op.toParent, op.toName) && (op.parent, op.name) in t.links
    && t.links[(op.parent, op.name)] in t.parents && Below(t, op.toParent, t.links[(op.parent, op.name)])
  }

  lemma ClearedTwig(t: Tree, d: nat, name: Name, x: nat, a: nat)
    requires TreeOk(t) && Rooted(t)
    requires (d, name) in t.links && t.links[(d, name)] in t.parents ==> EmptyDir(t, t.links[(d, name)])
    ensures Rooted(Cleared(t, d, name))
    ensures x in t.parents && x in Cleared(t, d, name).parents ==> (Below(t, x, a) <==> Below(Cleared(t, d, name), x, a))
  {
    hide TreeOk, Below, EmptyDir, DropDir, Rooted;
    var u := Cleared(t, d, name);
    if (d, name) in t.links && t.links[(d, name)] in t.parents {
      DropDirTwig(t, d, name);
      if x in t.parents && x in u.parents { TwigBelow(t, u, t.links[(d, name)], x, a); }
    } else {
      if (d, name) in t.links { DropFileParents(t, d, name); }
      SameParents(t, u);
      BelowEqual(t, u, x, a);
    }
  }

  lemma BelowEqual(t: Tree, u: Tree, x: nat, a: nat)
    requires u.parents == t.parents
    ensures Below(t, x, a) <==> Below(u, x, a)
  {
    if Below(t, x, a) { var k: nat :| Up(t, x, k) == a; UpEqual(t, u, x, k); }
    if Below(u, x, a) { var k: nat :| Up(u, x, k) == a; UpEqual(t, u, x, k); }
  }

  lemma DropFileParents(t: Tree, d: nat, name: Name)
    requires (d, name) in t.links && t.links[(d, name)] !in t.parents
    ensures DropFile(t, d, name).parents == t.parents
  {
    hide Keys;
    assert t.parents - {t.links[(d, name)]} == t.parents;
  }

  lemma RenameRooted(t: Tree, d: nat, name: Name, e: nat, to: Name)
    requires TreeOk(t) && Rooted(t) && e in t.parents && PlainName(to)
    requires Moot(t, d, name, e, to) || (Renamable(t, d, name, e, to) && (d, name) in Cleared(t, e, to).links)
    ensures Rooted(Renamed(t, d, name, e, to)) <==> !Swallows(t, Rename(d, name, e, to))
  {
    hide TreeOk, EmptyDir, Cleared, Move, Rooted, Below;
    if !Moot(t, d, name, e, to) {
      ClearedKeeps(t, d, name, e, to);
      ClearedTwig(t, e, to, e, t.links[(d, name)]);
      ClearedOk(t, e, to);
      MoveRooted(Cleared(t, e, to), d, name, e, to);
    }
  }

  /** Every operation keeps all directories reachable, except a rename that swallows its own target, which never does. */
  lemma StepRooted(t: Tree, op: Op, u: Tree)
    requires TreeOk(t) && Rooted(t) && Step(t, op, u)
    ensures Rooted(u) <==> !Swallows(t, op)
  {
    hide TreeOk, EmptyDir, DropDir, Renamed, Moot, Renamable, Cleared, NewDir, Rooted, Resized, DropFile;
    match op
    case Create(_, _, _) => SameParents(t, u);
    case MakeDir(d, name) => var n: nat :| n !in t.kinds && u == NewDir(t, d, name, n); NewDirRooted(t, d, name, n);
    case MakeSymlink(_, _, _) => SameParents(t, u);
    case MakeNode(_, _, _, _, _) => SameParents(t, u);
    case MakeLink(_, _, _) => SameParents(t, u);
    case RemoveFile(d, name) => DropFileParents(t, d, name); SameParents(t, u);
    case RemoveDir(d, name) => DropDirTwig(t, d, name);
    case Rename(d, name, e, to) => RenameRooted(t, d, name, e, to);
    case Resize(_, _) => SameParents(t, u);
    case Replace(_, _) => SameParents(t, u);
  }

  /** A run in which no rename swallows its target leaves every directory below the root. */
  lemma {:induction false} RunRooted(ts: seq<Tree>, ops: seq<Op>)
    requires Trace(ts, ops) && TreeOk(ts[0]) && Rooted(ts[0])
    requires forall i | 0 <= i < |ops| :: !Swallows(ts[i], ops[i])
    ensures TreeOk(ts[|ops|]) && Rooted(ts[|ops|])
    decreases |ops|
  {
    hide TreeOk, Step, Rooted, Swallows;
    if ops != [] {
      var k := |ops| - 1;
      assert Trace(ts[..k + 1], ops[..k]) by { Shorter(ts, ops); }
      RunRooted(ts[..k + 1], ops[..k]);
      StepOk(ts[k], ops[k], ts[k + 1]);
      StepRooted(ts[k], ops[k], ts[k + 1]);
    }
  }

  /** In a tree whose directories all reach the root, every inode has a path of plain names. */
  lemma {:induction false} PathTo(t: Tree, d: nat, k: nat) returns (path: Path)
    requires TreeOk(t) && d in t.parents && Up(t, d, k) == ROOT
    ensures PlainPath(path) && Walk(t, ROOT, path) == Some(d)
    decreases k
  {
    hide TreeOk, Crosses;
    if d == ROOT {
      path := [];
    } else {
      UpLast(t, d, 0);
      var p := t.parents[d];
      var name := NameOf(t, d);
      var front := PathTo(t, p, k - 1);
      path := front + [name];
      assert path[..|path| - 1] == front;
      LastStep(t, ROOT, path);
    }
  }

  lemma NameOf(t: Tree, d: nat) returns (name: Name)
    requires TreeOk(t) && d in t.parents && d != ROOT
    ensures PlainName(name) && t.parents[d] in t.parents && (t.parents[d], name) in t.links && t.links[(t.parents[d], name)] == d
  {
    hide BytesOk;
    assert NamedOnce(t, d);
    name :| Keys(t, d) == {(t.parents[d], name)};
    assert (t.parents[d], name) in Keys(t, d);
  }

  lemma Reached(t: Tree, n: nat) returns (path: Path)
    requires TreeOk(t) && Rooted(t) && n in t.kinds
    ensures PlainPath(path) && Walk(t, ROOT, path) == Some(n)
  {
    hide TreeOk, Crosses;
    FileOrDir(t, n);
    if n in t.parents {
      var k: nat :| Up(t, n, k) == ROOT;
      path := PathTo(t, n, k);
    } else {
      var key := SomeName(t, n);
      var k: nat :| Up(t, key.0, k) == ROOT;
      var front := PathTo(t, key.0, k);
      path := front + [key.1];
      assert path[..|path| - 1] == front;
      LastStep(t, ROOT, path);
    }
  }

  lemma SomeName(t: Tree, n: nat) returns (k: Key)
    requires TreeOk(t) && n in t.kinds && n !in t.parents
    ensures k in t.links && t.links[k] == n && k.0 in t.parents && PlainName(k.1)
  {
    hide BytesOk, NamedOnce;
    assert Keys(t, n) != {};
    k :| k in Keys(t, n);
  }

  // --- a rename that loses a directory ---------------------------------------

  /** The namespace of a fresh file system: the root alone. */
  ghost function Bare(): Tree { Tree(map[ROOT := Directory], map[], map[ROOT := ROOT], map[], map[]) }

  lemma BareOk()
    ensures TreeOk(Bare()) && Rooted(Bare()) && Refs(Bare(), ROOT) == 2
  {
    var t := Bare();
    assert Keys(t, ROOT) == {};
    assert Children(t, ROOT) == {ROOT};
    assert Up(t, ROOT, 0) == ROOT;
  }

  /** Moving `a` to `a/b/c` is allowed, stays well-formed, and cuts `a` and `b` off from the root. */
  lemma SwallowedDirectory(a: Name, b: Name, c: Name) returns (t: Tree, u: Tree)
    requires PlainName(a) && PlainName(b) && PlainName(c)
    ensures TreeOk(t) && Rooted(t) && Step(t, Rename(ROOT, a, 4, c), u) && TreeOk(u) && !Rooted(u)
  {
    hide TreeOk, Rooted, Keys;
    var t0 := Bare();
    BareOk();
    var t1 := NewDir(t0, ROOT, a, 3);
    NewDirOk(t0, ROOT, a, 3);
    NewDirRooted(t0, ROOT, a, 3);
    t := NewDir(t1, 3, b, 4);
    NewDirOk(t1, 3, b, 4);
    NewDirRooted(t1, 3, b, 4);
    var op := Rename(ROOT, a, 4, c);
    u := Renamed(t, ROOT, a, 4, c);
    assert Step(t, op, u);
    assert Up(t, 4, 1) == 3;
    StepOk(t, op, u);
    StepRooted(t, op, u);
  }
}
