/**
 Whole runs: any sequence of namespace operations, each either refused or carried
 out, followed on the abstract tree.
 */
module Run {
  import opened Geometry
  import opened VolumeState
  import opened Alloc
  import opened Inodes
  import opened Dir
  import opened Directory
  import opened DirOps
  import opened Tree
  import opened Mirror
  import opened Steps
  import opened Namespace
  import opened Removal
  import opened Paths

  datatype Op =
    | Create(parent: nat, name: Name, kind: FileType)
    | MakeDir(parent: nat, name: Name)
    | MakeSymlink(parent: nat, name: Name, target: seq<byte>)
    | MakeNode(parent: nat, name: Name, kind: FileType, major: word, minor: word)
    | MakeLink(parent: nat, name: Name, ino: nat)
    | RemoveFile(parent: nat, name: Name)
    | RemoveDir(parent: nat, name: Name)
    | Rename(parent: nat, name: Name, toParent: nat, toName: Name)
    | Resize(ino: nat, size: nat)
    | Replace(ino: nat, data: seq<byte>)

  /** `name` can be added to directory `d`. */
  ghost predicate Vacant(t: Tree, d: nat, name: Name) { d in t.parents && PlainName(name) && (d, name) !in t.links }

  ghost predicate AddsFile(t: Tree, d: nat, name: Name, kind: FileType, data: seq<byte>, u: Tree) {
    Vacant(t, d, name) && kind != Directory && kind != Unset && exists n: nat :: n !in t.kinds && u == NewFile(t, d, name, n, kind, data)
  }

  ghost predicate AddsNode(t: Tree, d: nat, name: Name, kind: FileType, slots: seq<nat>, u: Tree) {
    Vacant(t, d, name) && (kind == CharSpecial || kind == BlockSpecial)
    && exists n: nat :: n !in t.kinds && u == NewNode(t, d, name, n, kind, slots)
  }

  ghost predicate AddsDir(t: Tree, d: nat, name: Name, u: Tree) {
    Vacant(t, d, name) && exists n: nat :: n !in t.kinds && u == NewDir(t, d, name, n)
  }

  /** The abstract meaning of each operation. */
  ghost predicate Step(t: Tree, op: Op, u: Tree) {
    match op
    case Create(d, name, kind) => AddsFile(t, d, name, kind, [], u)
    case MakeDir(d, name) => AddsDir(t, d, name, u)
    case MakeSymlink(d, name, target) => AddsFile(t, d, name, Symlink, target, u)
    case MakeNode(d, name, kind, major, minor) => AddsNode(t, d, name, kind, DeviceSlots(major, minor), u)
    case MakeLink(d, name, n) => Vacant(t, d, name) && n in t.kinds && n !in t.parents && u == Link(t, d, name, n)
    case RemoveFile(d, name) => (d, name) in t.links && t.links[(d, name)] !in t.parents && u == DropFile(t, d, name)
    case RemoveDir(d, name) =>
      (d, name) in t.links && t.links[(d, name)] in t.parents && EmptyDir(t, t.links[(d, name)]) && u == DropDir(t, d, name)
    case Rename(d, name, e, to) =>
      && d in t.parents && e in t.parents && PlainName(name) && PlainName(to)
      && (Moot(t, d, name, e, to) || (Renamable(t, d, name, e, to) && (d, name) in Cleared(t, e, to).links))
      && u == Renamed(t, d, name, e, to)
    case Resize(n, size) => n in t.bytes && u == Sized(t, n, size)
    case Replace(n, data) => n in t.bytes && u == Fill(t, n, data)
  }

  /** What the operation needs of the namespace. */
  ghost predicate Permitted(t: Tree, op: Op) {
    match op
    case Create(d, name, kind) => Vacant(t, d, name) && kind != Directory && kind != Unset
    case MakeDir(d, name) => Vacant(t, d, name)
    case MakeSymlink(d, name, _) => Vacant(t, d, name)
    case MakeNode(d, name, kind, _, _) => Vacant(t, d, name) && (kind == CharSpecial || kind == BlockSpecial)
    case MakeLink(d, name, n) => Vacant(t, d, name) && n in t.bytes
    case RemoveFile(d, name) => (d, name) in t.links && t.links[(d, name)] !in t.parents
    case RemoveDir(d, name) => (d, name) in t.links && t.links[(d, name)] in t.parents && EmptyDir(t, t.links[(d, name)])
    case Rename(d, name, e, to) =>
      d in t.parents && e in t.parents && PlainName(name) && PlainName(to) && (Moot(t, d, name, e, to) || Renamable(t, d, name, e, to))
    case Resize(n, _) => n in t.bytes
    case Replace(n, _) => n in t.bytes
  }

  /** The link count the operation would raise is at its limit. */
  ghost predicate LinkLimit(t: Tree, op: Op) {
    match op
    case MakeDir(d, _) => Refs(t, d) + 1 == MAXLINKS
    case MakeLink(_, _, n) => Refs(t, n) + 1 == MAXLINKS
    case Rename(_, _, e, to) => Refs(Cleared(t, e, to), e) + 1 == MAXLINKS
    case _ => false
  }

  /** Why an operation fails: not permitted, no space, no inode, or a link count at its limit. */
  ghost predicate Obstacle(v: Vol, t: Tree, op: Op) {
    !Permitted(t, op) || NoSpace(v.g, v.own) || NoInodes(v, t) || LinkLimit(t, op)
  }

  /** A directory the caller may use as a parent. */
  method IsDirectory(vol: Volume, d: nat, ghost t: Tree) returns (r: bool)
    requires FsOk(vol.View(), t)
    ensures r <==> d in t.parents
  {
    hide FsOk;
    if d in t.parents { Record(vol.View(), t, d); }
    if d >= |vol.inodes| { return false; }
    Record(vol.View(), t, d);
    return vol.inodes[d].kind == Directory;
  }

  /** What callers check before adding a name: a directory, a plain name, not taken. */
  method IsVacant(vol: Volume, d: nat, name: Name, ghost t: Tree) returns (r: bool)
    requires FsOk(vol.View(), t)
    ensures r <==> Vacant(t, d, name)
  {
    hide FsOk, Mirrors, TreeOk, LinksMatch;
    FsParts(vol.View(), t);
    var directory := IsDirectory(vol, d, t);
    if !directory || !PlainName(name) { return false; }
    var found := Find(vol, d, name, t);
    return found.None?;
  }

  method IsFile(vol: Volume, n: nat, ghost t: Tree) returns (r: bool)
    requires FsOk(vol.View(), t)
    ensures r <==> n in t.bytes
    ensures r ==> n in t.kinds && n !in t.parents
  {
    hide FsOk;
    BytesExist(vol.View(), t, n);
    if n >= |vol.inodes| { return false; }
    Record(vol.View(), t, n);
    return vol.inodes[n].kind != Unset && vol.inodes[n].kind != Directory;
  }

  lemma BytesExist(v: Vol, t: Tree, n: nat)
    requires FsOk(v, t)
    ensures n in t.bytes ==> n < |v.inodes|
  {
    hide Mirrors, LinksMatch, NamesOk, LinksOk;
    if n in t.bytes { FileBytes(v, t, n); }
  }

  /** One creating operation, refused unless its name is vacant. */
  method AttemptCreate(vol: Volume, op: Op, ghost t: Tree) returns (r: Result<()>, ghost u: Tree)
    requires FsOk(vol.View(), t) && (op.Create? || op.MakeDir? || op.MakeSymlink? || op.MakeNode?)
    modifies vol, vol.image
    ensures r.Ok? ==> Step(t, op, u) && FsOk(vol.View(), u)
    ensures r.Err? ==> Obstacle(vol.View(), t, op)
  {
    hide FsOk, NoSpace, NoInodes, Refs, DeviceSlots;
    u := t;
    var vacant := IsVacant(vol, op.parent, op.name, t);
    if !vacant { return Err, t; }
    var made;
    match op {
      case Create(d, name, kind) =>
        if kind == Unset || kind == Directory { return Err, t; }
        made := CreateEmptyInParent(vol, d, name, kind, t);
        if made.Ok? { u := NewFile(t, d, name, made.value, kind, []); }
      case MakeDir(d, name) =>
        made := MkdirInParent(vol, d, name, t);
        if made.Ok? { u := NewDir(t, d, name, made.value); }
      case MakeSymlink(d, name, target) =>
        made := SymlinkInParent(vol, d, name, target, t);
        if made.Ok? { u := NewFile(t, d, name, made.value, Symlink, target); }
      case MakeNode(d, name, kind, major, minor) =>
        made := MknodInParent(vol, d, name, kind, major, minor, t);
        if made.Ok? { u := NewNode(t, d, name, made.value, kind, DeviceSlots(major, minor)); }
    }
    return if made.Ok? then Ok(()) else Err, u;
  }

  /** One operation, refused unless the caller's obligations hold. */
  method Attempt(vol: Volume, op: Op, ghost t: Tree) returns (r: Result<()>, ghost u: Tree)
    requires FsOk(vol.View(), t)
    modifies vol, vol.image
    ensures r.Ok? ==> Step(t, op, u) && FsOk(vol.View(), u)
    ensures r.Err? ==> Obstacle(vol.View(), t, op)
  {
    hide FsOk, NewFile, NewDir, DropFile, DropDir, Link, Fill, Renamed, Cleared, Moot, Renamable, EmptyDir, NoSpace, NoInodes, Refs, Sized, DeviceSlots;
    u := t;
    match op {
      case Create(_, _, _) => r, u := AttemptCreate(vol, op, t);
      case MakeDir(_, _) => r, u := AttemptCreate(vol, op, t);
      case MakeSymlink(_, _, _) => r, u := AttemptCreate(vol, op, t);
      case MakeNode(_, _, _, _, _) => r, u := AttemptCreate(vol, op, t);
      case MakeLink(d, name, n) =>
        var vacant := IsVacant(vol, d, name, t);
        var file := IsFile(vol, n, t);
        if !vacant || !file { return Err, t; }
        r := LinkInParent(vol, d, name, n, t);
        if r.Ok? { u := Link(t, d, name, n); }
      case RemoveFile(d, name) =>
        var directory := IsDirectory(vol, d, t);
        if (d, name) in t.links { Named(vol.View(), t, d, name); }
        if !directory || !PlainName(name) { return Err, t; }
        var removed := UnlinkInParent(vol, d, name, t);
        if removed.Err? { return Err, t; }
        r, u := Ok(()), DropFile(t, d, name);
      case RemoveDir(d, name) =>
        var directory := IsDirectory(vol, d, t);
        if (d, name) in t.links { Named(vol.View(), t, d, name); }
        if !directory || !PlainName(name) { return Err, t; }
        var removed := RmdirInParent(vol, d, name, t);
        if removed.Err? { return Err, t; }
        r, u := Ok(()), DropDir(t, d, name);
      case Rename(d, name, e, to) =>
        var from := IsDirectory(vol, d, t);
        var into := IsDirectory(vol, e, t);
        if !from || !into || !PlainName(name) || !PlainName(to) { return Err, t; }
        r := RenameInParent(vol, d, name, e, to, t);
        if r.Ok? { u := Renamed(t, d, name, e, to); }
      case Resize(n, size) =>
        var file := IsFile(vol, n, t);
        if !file { return Err, t; }
        r := Truncate(vol, n, size, t);
        if r.Ok? { u := Sized(t, n, size); }
      case Replace(n, data) =>
        var file := IsFile(vol, n, t);
        if !file { return Err, t; }
        r := WriteFile(vol, n, data, t);
        if r.Ok? { u := Fill(t, n, data); }
    }
  }

  /** The trees `ts` are what the operations make of `ts[0]`, one after the other. */
  ghost predicate Trace(ts: seq<Tree>, ops: seq<Op>) {
    |ts| == |ops| + 1 && forall i | 0 <= i < |ops| :: Step(ts[i], ops[i], ts[i + 1])
  }

  /** Runs the operations until one meets an obstacle; as long as none does, the invariant holds. */
  method RunAll(vol: Volume, ops: seq<Op>, ghost t: Tree) returns (done: nat, ghost ts: seq<Tree>)
    requires FsOk(vol.View(), t)
    modifies vol, vol.image
    ensures done <= |ops|
    ensures Trace(ts, ops[..done]) && ts[0] == t
    ensures done == |ops| ==> Trace(ts, ops) && FsOk(vol.View(), ts[|ops|])
    ensures done < |ops| ==> Obstacle(vol.View(), ts[done], ops[done])
  {
    hide FsOk, Step, Obstacle;
    ts := [t];
    for i := 0 to |ops|
      invariant Trace(ts, ops[..i]) && ts[0] == t && FsOk(vol.View(), ts[i])
    {
      var r, u := Attempt(vol, ops[i], ts[i]);
      if r.Err? { return i, ts; }
      TraceMore(ts, ops[..i], ops[i], u);
      assert ops[..i + 1] == ops[..i] + [ops[i]];
      ts := ts + [u];
    }
    assert ops[..|ops|] == ops;
    return |ops|, ts;
  }

  lemma TraceMore(ts: seq<Tree>, ops: seq<Op>, op: Op, u: Tree)
    requires Trace(ts, ops) && Step(ts[|ops|], op, u)
    ensures Trace(ts + [u], ops + [op])
  {
    hide Step;
  }
}
