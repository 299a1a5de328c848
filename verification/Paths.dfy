/** Paths: what they lead to, and what an operation does to the paths it does not name. */
module Paths {
  import opened Geometry
  import opened VolumeState
  import opened Alloc
  import opened Inodes
  import opened Dir
  import opened Directory
  import opened DirOps
  import opened Tree
  import opened ListingOps
  import opened Mirror
  import opened Steps
  import opened Namespace
  import opened Removal

  type Path = seq<Name>

  /** The inode a path leads to from `d`. */
  ghost function Walk(t: Tree, d: nat, path: Path): Option<nat>
    decreases |path|
  {
    if path == [] then Some(d)
    else if d !in t.parents || Resolve(t, d, path[0]).None? then None
    else Walk(t, Resolve(t, d, path[0]).value, path[1..])
  }

  /** Components are not empty, and each is looked up in a directory. */
  ghost predicate Through(t: Tree, d: nat, path: Path)
    decreases |path|
  {
    path == [] || (path[0] != [] && d in t.parents && (Resolve(t, d, path[0]).Some? ==> Through(t, Resolve(t, d, path[0]).value, path[1..])))
  }

  /** `resolve_path`. */
  method ResolvePath(vol: Volume, path: Path, ghost t: Tree) returns (r: Option<nat>)
    requires Mirrors(vol.View(), t) && TreeOk(t) && Through(t, ROOT, path)
    ensures r == Walk(t, ROOT, path)
  {
    hide Mirrors, TreeOk, Resolve;
    var current := ROOT;
    assert path[0..] == path;
    for i := 0 to |path|
      invariant Walk(t, current, path[i..]) == Walk(t, ROOT, path) && Through(t, current, path[i..])
    {
      var found := Find(vol, current, path[i], t);
      assert path[i..][0] == path[i] && path[i..][1..] == path[i + 1..];
      if found.None? { return None; }
      current := found.value;
    }
    assert path[|path|..] == [];
    return Some(current);
  }

  /** `split_parent` and `resolve_creation_parent`: an existing directory without that name. */
  method CreationParent(vol: Volume, path: Path, ghost t: Tree) returns (r: Result<nat>)
    requires FsOk(vol.View(), t) && path != [] && Through(t, ROOT, path[..|path| - 1]) && PlainName(path[|path| - 1])
    ensures r.Ok? <==> CanCreate(t, path)
    ensures r.Ok? ==> Walk(t, ROOT, path[..|path| - 1]) == Some(r.value)
  {
    hide FsOk, Mirrors, TreeOk, LinksMatch;
    FsParts(vol.View(), t);
    var parent := ResolvePath(vol, path[..|path| - 1], t);
    if parent.None? { return Err; }
    WalkExists(t, ROOT, path[..|path| - 1]);
    Record(vol.View(), t, parent.value);
    if vol.inodes[parent.value].kind != Directory { return Err; }
    var found := Find(vol, parent.value, path[|path| - 1], t);
    return if found.None? then Ok(parent.value) else Err;
  }

  ghost predicate CanCreate(t: Tree, path: Path)
    requires path != []
  {
    var p := Walk(t, ROOT, path[..|path| - 1]);
    p.Some? && p.value in t.parents && (p.value, path[|path| - 1]) !in t.links
  }

  lemma {:induction false} WalkExists(t: Tree, d: nat, path: Path)
    requires TreeOk(t) && (d in t.kinds || d == ROOT)
    ensures Walk(t, d, path).Some? ==> Walk(t, d, path).value in t.kinds
    decreases |path|
  {
    hide NamesOk, BytesOk;
    if path != [] && d in t.parents && Resolve(t, d, path[0]).Some? {
      WalkExists(t, Resolve(t, d, path[0]).value, path[1..]);
    }
  }

  // --- operations by path ----------------------------------------------------

  /** `create_file`. */
  method CreateFile(vol: Volume, path: Path, kind: FileType, data: seq<byte>, ghost t: Tree) returns (r: Result<nat>)
    requires FsOk(vol.View(), t) && path != [] && Through(t, ROOT, path[..|path| - 1]) && PlainName(path[|path| - 1])
    requires kind != Unset && kind != Directory
    modifies vol, vol.image
    ensures r.Ok? ==> CanCreate(t, path) && r.value !in t.kinds
    ensures r.Ok? ==> FsOk(vol.View(), NewFile(t, Walk(t, ROOT, path[..|path| - 1]).value, path[|path| - 1], r.value, kind, data))
    ensures !CanCreate(t, path) ==> r.Err? && vol.View() == old(vol.View())
    ensures r.Err? && CanCreate(t, path) ==> NoSpace(vol.g, vol.own) || NoInodes(vol.View(), t)
  {
    hide FsOk, Walk, NewFile, NoSpace, NoInodes;
    var parent := CreationParent(vol, path, t);
    if parent.Err? { return Err; }
    r := AddFile(vol, parent.value, path[|path| - 1], kind, data, data != [], t);
  }

  /** `make_directory`. */
  method MakeDirectory(vol: Volume, path: Path, ghost t: Tree) returns (r: Result<nat>)
    requires FsOk(vol.View(), t) && path != [] && Through(t, ROOT, path[..|path| - 1]) && PlainName(path[|path| - 1])
    modifies vol, vol.image
    ensures r.Ok? ==> CanCreate(t, path) && r.value !in t.kinds
    ensures r.Ok? ==> FsOk(vol.View(), NewDir(t, Walk(t, ROOT, path[..|path| - 1]).value, path[|path| - 1], r.value))
    ensures !CanCreate(t, path) ==> r.Err? && vol.View() == old(vol.View())
    ensures r.Err? && CanCreate(t, path) ==>
              NoSpace(vol.g, vol.own) || NoInodes(vol.View(), t) || Refs(t, Walk(t, ROOT, path[..|path| - 1]).value) + 1 == MAXLINKS
  {
    hide FsOk, Walk, NewDir, NoSpace, NoInodes, Refs;
    var parent := CreationParent(vol, path, t);
    if parent.Err? { return Err; }
    r := MkdirInParent(vol, parent.value, path[|path| - 1], t);
  }

  /** `link`. */
  method LinkPath(vol: Volume, source: Path, path: Path, ghost t: Tree) returns (r: Result<nat>)
    requires FsOk(vol.View(), t) && Through(t, ROOT, source)
    requires path != [] && Through(t, ROOT, path[..|path| - 1]) && PlainName(path[|path| - 1])
    modifies vol, vol.image
    ensures r.Ok? ==> CanCreate(t, path) && Walk(t, ROOT, source) == Some(r.value) && r.value in t.kinds && r.value !in t.parents
    ensures r.Ok? ==> FsOk(vol.View(), Link(t, Walk(t, ROOT, path[..|path| - 1]).value, path[|path| - 1], r.value))
    ensures !CanCreate(t, path) || Walk(t, ROOT, source).None? || Walk(t, ROOT, source).value in t.parents ==>
              r.Err? && vol.View() == old(vol.View())
    ensures r.Err? && CanCreate(t, path) && Walk(t, ROOT, source).Some? && Walk(t, ROOT, source).value !in t.parents ==>
              NoSpace(vol.g, vol.own) || Refs(t, Walk(t, ROOT, source).value) + 1 == MAXLINKS
  {
    hide FsOk, Walk, TreeOk, Mirrors, LinksMatch, NoSpace, Refs;
    FsParts(vol.View(), t);
    var target := ResolvePath(vol, source, t);
    if target.None? { return Err; }
    WalkExists(t, ROOT, source);
    Record(vol.View(), t, target.value);
    if vol.inodes[target.value].kind == Directory { return Err; }
    var parent := CreationParent(vol, path, t);
    if parent.Err? { return Err; }
    var linked := LinkInParent(vol, parent.value, path[|path| - 1], target.value, t);
    return if linked.Ok? then Ok(target.value) else Err;
  }

  /** `unlink`, by the parent directory and the last component. */
  method UnlinkPath(vol: Volume, path: Path, ghost t: Tree) returns (r: Result<nat>)
    requires FsOk(vol.View(), t) && path != [] && Through(t, ROOT, path) && PlainName(path[|path| - 1])
    modifies vol, vol.image
    ensures r.Ok? <==> Walk(t, ROOT, path).Some? && Walk(t, ROOT, path).value !in t.parents
    ensures r.Ok? ==> Walk(t, ROOT, path) == Some(r.value)
    ensures r.Ok? ==> Walk(t, ROOT, path[..|path| - 1]).Some? && (Walk(t, ROOT, path[..|path| - 1]).value, path[|path| - 1]) in t.links
    ensures r.Ok? ==> FsOk(vol.View(), DropFile(t, Walk(t, ROOT, path[..|path| - 1]).value, path[|path| - 1]))
    ensures r.Err? ==> vol.View() == old(vol.View())
  {
    hide FsOk, Walk, Through, Mirrors, TreeOk, LinksMatch, DropFile;
    FsParts(vol.View(), t);
    LastStep(t, ROOT, path);
    var parent := ResolvePath(vol, path[..|path| - 1], t);
    if parent.None? { return Err; }
    r := UnlinkInParent(vol, parent.value, path[|path| - 1], t);
  }

  /** `remove_directory`. */
  method RemoveDirectory(vol: Volume, path: Path, ghost t: Tree) returns (r: Result<nat>)
    requires FsOk(vol.View(), t) && path != [] && Through(t, ROOT, path) && PlainName(path[|path| - 1])
    modifies vol, vol.image
    ensures r.Ok? <==> Walk(t, ROOT, path).Some? && Walk(t, ROOT, path).value in t.parents && EmptyDir(t, Walk(t, ROOT, path).value)
    ensures r.Ok? ==> Walk(t, ROOT, path) == Some(r.value)
    ensures r.Ok? ==> Walk(t, ROOT, path[..|path| - 1]).Some? && (Walk(t, ROOT, path[..|path| - 1]).value, path[|path| - 1]) in t.links
    ensures r.Ok? ==> FsOk(vol.View(), DropDir(t, Walk(t, ROOT, path[..|path| - 1]).value, path[|path| - 1]))
    ensures r.Err? ==> vol.View() == old(vol.View())
  {
    hide FsOk, Walk, Through, Mirrors, TreeOk, LinksMatch, DropDir;
    FsParts(vol.View(), t);
    LastStep(t, ROOT, path);
    var parent := ResolvePath(vol, path[..|path| - 1], t);
    if parent.None? { return Err; }
    r := RmdirInParent(vol, parent.value, path[|path| - 1], t);
  }

  /** A path is its parent's path and one more step. */
  lemma {:induction false} LastStep(t: Tree, d: nat, path: Path)
    requires path != []
    ensures var p := Walk(t, d, path[..|path| - 1]);
      && (Through(t, d, path) ==> Through(t, d, path[..|path| - 1]) && (p.Some? ==> p.value in t.parents))
      && Walk(t, d, path) == if p.None? || p.value !in t.parents then None else Resolve(t, p.value, path[|path| - 1])
    decreases |path|
  {
    hide Resolve;
    if |path| == 1 {
      assert path[..0] == [] && path[1..] == [];
    } else if d in t.parents && Resolve(t, d, path[0]).Some? {
      LastStep(t, Resolve(t, d, path[0]).value, path[1..]);
      assert path[1..][..|path| - 2] == path[..|path| - 1][1..];
    }
  }

  // --- what other paths keep -------------------------------------------------

  ghost predicate PlainPath(path: Path) {
    forall i | 0 <= i < |path| :: PlainName(path[i])
  }

  /** The path passes one of the given names. */
  ghost predicate Crosses(t: Tree, d: nat, path: Path, keys: set<Key>)
    decreases |path|
  {
    path != [] && d in t.parents
    && ((d, path[0]) in keys || (Resolve(t, d, path[0]).Some? && Crosses(t, Resolve(t, d, path[0]).value, path[1..], keys)))
  }

  /** The trees differ only in the given names and in inodes nothing else leads to. */
  ghost predicate Agree(t: Tree, u: Tree, keys: set<Key>, gone: set<nat>) {
    && (forall k: Key | k !in keys :: (k in t.links <==> k in u.links) && (k in t.links ==> t.links[k] == u.links[k] && t.links[k] !in gone))
    && (forall x: nat | x !in gone :: x in t.parents <==> x in u.parents)
  }

  /** A path that avoids the changed names leads where it led before. */
  lemma {:induction false} WalkAgrees(t: Tree, u: Tree, keys: set<Key>, gone: set<nat>, d: nat, path: Path)
    requires Agree(t, u, keys, gone) && d !in gone && PlainPath(path) && !Crosses(t, d, path, keys)
    ensures Walk(u, d, path) == Walk(t, d, path) && !Crosses(u, d, path, keys)
    ensures Walk(t, d, path).Some? ==> Walk(t, d, path).value !in gone
    decreases |path|
  {
    if path != [] && d in t.parents {
      assert PlainName(path[0]);
      var k := (d, path[0]);
      assert k in t.links <==> k in u.links;
      if k in t.links {
        WalkAgrees(t, u, keys, gone, t.links[k], path[1..]);
      }
    }
  }

  /** A renamed directory takes everything below it along. */
  lemma MovedSubtree(t: Tree, sd: nat, sname: Name, dd: nat, dname: Name, rest: Path)
    requires TreeOk(t) && (sd, sname) in t.links && (dd, dname) !in t.links && dd in t.parents && PlainName(dname) && PlainPath(rest)
    requires !Crosses(t, t.links[(sd, sname)], rest, {(sd, sname), (dd, dname)})
    ensures Walk(Move(t, sd, sname, dd, dname), dd, [dname] + rest) == Walk(t, sd, [sname] + rest)
  {
    hide NamesOk, BytesOk, Keys;
    var n, u := t.links[(sd, sname)], Move(t, sd, sname, dd, dname);
    MoveAgrees(t, sd, sname, dd, dname);
    WalkAgrees(t, u, {(sd, sname), (dd, dname)}, {}, n, rest);
    assert ([dname] + rest)[1..] == rest && ([sname] + rest)[1..] == rest;
    assert PlainName(sname);
    assert dd in u.parents && Resolve(u, dd, dname) == Some(n);
  }

  lemma MoveAgrees(t: Tree, sd: nat, sname: Name, dd: nat, dname: Name)
    requires (sd, sname) in t.links && (dd, dname) !in t.links
    ensures Agree(t, Move(t, sd, sname, dd, dname), {(sd, sname), (dd, dname)}, {})
  {
  }
}
