/** The namespace as users of the daemon see it: buffered bodies in place of those on disk. */
module Veiled {
  import opened Geometry
  import opened VolumeState
  import opened Dir
  import opened Directory
  import opened Tree
  import opened Mirror
  import opened Namespace
  import opened Removal
  import opened Paths
  import opened Run
  import opened History
  import opened Mount

  /** The tree with the plain contents of its files; where a device keeps its numbers is not part of it. */
  ghost function Veil(t: Tree, buffers: map<nat, FileBuf>): Tree {
    t.(bytes := Overlay(t.bytes, buffers), devices := map[])
  }

  // --- the operations do not look at contents --------------------------------

  lemma VeilFile(t: Tree, b: map<nat, FileBuf>, d: nat, name: Name, n: nat, kind: FileType, data: seq<byte>)
    requires n !in b
    ensures NewFile(Veil(t, b), d, name, n, kind, data) == Veil(NewFile(t, d, name, n, kind, data), b)
  {
    assert Overlay(t.bytes, b)[n := []][n := data] == Overlay(t.bytes[n := []][n := data], b);
    var none: map<nat, seq<nat>> := map[];
    assert (none - {n}) - {n} == none;
  }

  lemma VeilDir(t: Tree, b: map<nat, FileBuf>, d: nat, name: Name, n: nat)
    requires n !in b
    ensures NewDir(Veil(t, b), d, name, n) == Veil(NewDir(t, d, name, n), b)
  {
    assert Overlay(t.bytes, b)[n := []] - {n} == Overlay(t.bytes[n := []] - {n}, b);
    var none: map<nat, seq<nat>> := map[];
    assert (none - {n}) - {n} == none;
  }

  lemma VeilForget(t: Tree, b: map<nat, FileBuf>, n: nat)
    ensures Forget(Veil(t, b), n) == Veil(Forget(t, n), b)
  {
    assert Overlay(t.bytes, b) - {n} == Overlay(t.bytes - {n}, b);
    var none: map<nat, seq<nat>> := map[];
    assert none - {n} == none;
  }

  lemma VeilDropFile(t: Tree, b: map<nat, FileBuf>, d: nat, name: Name)
    requires (d, name) in t.links
    ensures DropFile(Veil(t, b), d, name) == Veil(DropFile(t, d, name), b)
  {
    hide Forget;
    var n := t.links[(d, name)];
    KeysSameLinks(Unlink(t, d, name), Unlink(Veil(t, b), d, name), n);
    VeilForget(Unlink(t, d, name), b, n);
  }

  lemma VeilDropDir(t: Tree, b: map<nat, FileBuf>, d: nat, name: Name)
    requires (d, name) in t.links
    ensures DropDir(Veil(t, b), d, name) == Veil(DropDir(t, d, name), b)
  {
    hide Forget;
    VeilForget(Unlink(t, d, name), b, t.links[(d, name)]);
  }

  lemma VeilMove(t: Tree, b: map<nat, FileBuf>, sd: nat, sname: Name, dd: nat, dname: Name)
    requires (sd, sname) in t.links
    ensures Move(Veil(t, b), sd, sname, dd, dname) == Veil(Move(t, sd, sname, dd, dname), b)
  {
    var n := t.links[(sd, sname)];
    assert Overlay(t.bytes, b) - {n} == Overlay(t.bytes - {n}, b);
    var none: map<nat, seq<nat>> := map[];
    assert none - {n} == none;
  }

  lemma VeilCleared(t: Tree, b: map<nat, FileBuf>, e: nat, to: Name)
    ensures Cleared(Veil(t, b), e, to) == Veil(Cleared(t, e, to), b)
  {
    hide DropFile, DropDir;
    if (e, to) in t.links {
      VeilDropFile(t, b, e, to);
      VeilDropDir(t, b, e, to);
    }
  }

  lemma VeilRename(t: Tree, b: map<nat, FileBuf>, d: nat, name: Name, e: nat, to: Name)
    requires Moot(t, d, name, e, to) || (d, name) in Cleared(t, e, to).links
    ensures Cleared(Veil(t, b), e, to) == Veil(Cleared(t, e, to), b)
    ensures Moot(Veil(t, b), d, name, e, to) <==> Moot(t, d, name, e, to)
    ensures Moot(t, d, name, e, to) || (d, name) in Cleared(Veil(t, b), e, to).links
    ensures Renamed(Veil(t, b), d, name, e, to) == Veil(Renamed(t, d, name, e, to), b)
  {
    hide DropFile, DropDir, Move;
    VeilCleared(t, b, e, to);
    if !Moot(t, d, name, e, to) { VeilMove(Cleared(t, e, to), b, d, name, e, to); }
  }

  lemma VeilRenamable(t: Tree, b: map<nat, FileBuf>, d: nat, name: Name, e: nat, to: Name)
    ensures Renamable(Veil(t, b), d, name, e, to) <==> Renamable(t, d, name, e, to)
  {
  }

  /** A namespace operation means the same to users of the daemon as on disk. */
  lemma StepVeiled(t: Tree, op: Op, u: Tree, b: map<nat, FileBuf>) returns (w: Tree)
    requires Step(t, op, u) && !op.Resize? && !op.Replace? && forall n | n in b :: n in t.kinds
    ensures Step(Veil(t, b), op, w) && w.(devices := map[]) == Veil(u, b)
  {
    hide NewFile, NewDir, DropFile, DropDir, Renamed, Cleared, Moot, Renamable, Overlay, DeviceSlots;
    w := Veil(u, b);
    match op
    case Create(d, name, kind) => VeilAdds(t, d, name, kind, [], u, b);
    case MakeDir(d, name) => var n: nat :| n !in t.kinds && u == NewDir(t, d, name, n); VeilDir(t, b, d, name, n);
    case MakeSymlink(d, name, target) => VeilAdds(t, d, name, Symlink, target, u, b);
    case MakeNode(d, name, kind, major, minor) =>
      var slots := DeviceSlots(major, minor);
      var n: nat :| n !in t.kinds && u == NewNode(t, d, name, n, kind, slots);
      VeilFile(t, b, d, name, n, kind, []);
      w := NewNode(Veil(t, b), d, name, n, kind, slots);
    case MakeLink(d, name, n) =>
    case RemoveFile(d, name) => VeilDropFile(t, b, d, name);
    case RemoveDir(d, name) => VeilDropDir(t, b, d, name);
    case Rename(d, name, e, to) => VeilRename(t, b, d, name, e, to); VeilRenamable(t, b, d, name, e, to);
  }

  lemma VeilAdds(t: Tree, d: nat, name: Name, kind: FileType, data: seq<byte>, u: Tree, b: map<nat, FileBuf>)
    requires AddsFile(t, d, name, kind, data, u) && forall n | n in b :: n in t.kinds
    ensures AddsFile(Veil(t, b), d, name, kind, data, Veil(u, b))
  {
    hide NewFile, Overlay;
    var n: nat :| n !in t.kinds && u == NewFile(t, d, name, n, kind, data);
    VeilFile(t, b, d, name, n, kind, data);
  }

  lemma VeilRefs(t: Tree, b: map<nat, FileBuf>, n: nat)
    ensures Refs(Veil(t, b), n) == Refs(t, n)
  {
    KeysSameLinks(t, Veil(t, b), n);
    assert Children(Veil(t, b), n) == Children(t, n);
  }

  /** What stands in the way of an operation stands in its way for users of the daemon too. */
  lemma ObstacleVeiled(v: Vol, t: Tree, op: Op, b: map<nat, FileBuf>)
    requires Obstacle(v, t, op)
    ensures Obstacle(v, Veil(t, b), op)
  {
    hide Refs, Cleared;
    if op.Rename? {
      VeilCleared(t, b, op.toParent, op.toName);
      VeilRefs(Cleared(t, op.toParent, op.toName), b, op.toParent);
    }
    if op.MakeDir? { VeilRefs(t, b, op.parent); }
    if op.MakeLink? { VeilRefs(t, b, op.ino); }
  }

  // --- open files survive ----------------------------------------------------

  /** The last name of `n`. */
  ghost predicate OnlyName(t: Tree, d: nat, name: Name, n: nat) {
    (d, name) in t.links && t.links[(d, name)] == n && Keys(Unlink(t, d, name), n) == {}
  }

  /** The operation does not take away the last name of file `n`. */
  ghost predicate Spares(t: Tree, op: Op, n: nat) {
    match op
    case RemoveFile(d, name) => !OnlyName(t, d, name, n)
    case Rename(d, name, e, to) => Moot(t, d, name, e, to) || !OnlyName(t, e, to, n)
    case _ => true
  }

  lemma VeilSpares(t: Tree, op: Op, n: nat, b: map<nat, FileBuf>)
    ensures Spares(Veil(t, b), op, n) <==> Spares(t, op, n)
  {
    hide Keys, Overlay;
    if op.RemoveFile? { KeysSameLinks(Unlink(t, op.parent, op.name), Unlink(Veil(t, b), op.parent, op.name), n); }
    if op.Rename? { KeysSameLinks(Unlink(t, op.toParent, op.toName), Unlink(Veil(t, b), op.toParent, op.toName), n); }
  }

  lemma Spared(t: Tree, op: Op, u: Tree, n: nat)
    requires TreeOk(t) && Step(t, op, u) && !op.Resize? && !op.Replace? && n in t.bytes && Spares(t, op, n)
    ensures n in u.bytes && u.bytes[n] == t.bytes[n]
  {
    hide TreeOk, Step;
    SparedExists(t, op, u, n);
    StepKeeps(t, op, u, []);
  }

  lemma SparedExists(t: Tree, op: Op, u: Tree, n: nat)
    requires TreeOk(t) && Step(t, op, u) && !op.Resize? && !op.Replace? && n in t.bytes && Spares(t, op, n)
    ensures n in u.bytes
  {
    hide NamesOk, LinksOk, Keys, EmptyDir, DeviceSlots, Renamed, Cleared;
    if op.Rename? { RenameSpares(t, op.parent, op.name, op.toParent, op.toName, n); }
  }

  lemma RenameSpares(t: Tree, d: nat, name: Name, e: nat, to: Name, n: nat)
    requires BytesOk(t) && n in t.bytes && (Moot(t, d, name, e, to) || !OnlyName(t, e, to, n))
    requires Moot(t, d, name, e, to) || (d, name) in Cleared(t, e, to).links
    ensures n in Renamed(t, d, name, e, to).bytes
  {
    hide Cleared, OnlyName, BytesOk;
    if !Moot(t, d, name, e, to) {
      ClearedSpares(t, e, to, n);
      MoveSpares(Cleared(t, e, to), d, name, e, to, n);
    }
  }

  lemma ClearedSpares(t: Tree, e: nat, to: Name, n: nat)
    requires BytesOk(t) && n in t.bytes && !OnlyName(t, e, to, n)
    ensures var u := Cleared(t, e, to); n in u.bytes && n !in u.parents
  {
    hide Keys;
  }

  lemma MoveSpares(t: Tree, d: nat, name: Name, e: nat, to: Name, n: nat)
    requires (d, name) in t.links && n in t.bytes && n !in t.parents
    ensures n in Move(t, d, name, e, to).bytes
  {
  }
}
