/**
 The abstract namespace: which inodes exist, which name in which directory leads
 where, and each directory's parent. Link counts are counts of these references.
 */
module Tree {
  import opened Geometry
  import opened VolumeState
  import opened Dir
  import opened Directory

  type Key = (nat, Name)

  /** `kinds`: what exists; `links`: names; `parents`: where ".." leads; `bytes`: what files hold;
      `devices`: the direct slots of device nodes, which hold their numbers. */
  datatype Tree = Tree(kinds: map<nat, FileType>, links: map<Key, nat>, parents: map<nat, nat>, bytes: map<nat, seq<byte>>,
                       devices: map<nat, seq<nat>>)

  predicate PlainName(name: Name) {
    0 < |name| <= MAXNAME && Ascii(name) && name != DOT && name != DOTDOT
  }

  /** Names other than "." and ".." that lead to `n`. */
  ghost function Keys(t: Tree, n: nat): set<Key> { set k | k in t.links && t.links[k] == n }

  /** Directories whose ".." is `n`. */
  ghost function Children(t: Tree, n: nat): set<nat> { set d | d in t.parents && t.parents[d] == n }

  /** Directory records that name `n`, "." and ".." included. */
  ghost function Refs(t: Tree, n: nat): nat { |Keys(t, n)| + One(n in t.parents) + |Children(t, n)| }

  /** The directories are the inodes with a parent; the root is its own. */
  ghost predicate DirsOk(t: Tree) {
    && (forall n | n in t.parents :: n in t.kinds && t.kinds[n] == Directory)
    && t.parents.Values <= t.parents.Keys
    && (forall n | n in t.kinds && t.kinds[n] == Directory :: n in t.parents)
    && ROOT in t.parents && t.parents[ROOT] == ROOT
  }

  /** Every name stands in a directory and leads to an inode that exists. */
  ghost predicate LinksOk(t: Tree) {
    forall k | k in t.links :: k.0 in t.parents && t.links[k] in t.kinds && PlainName(k.1)
  }

  /** The root has no name, other directories one, files at least one. */
  ghost predicate NamesOk(t: Tree) {
    && Keys(t, ROOT) == {}
    && (forall d | d in t.parents && d != ROOT :: NamedOnce(t, d))
    && (forall n | n in t.kinds && n !in t.parents :: Keys(t, n) != {})
  }

  /** Exactly the inodes that are not directories hold file bytes; some of these are devices. */
  ghost predicate BytesOk(t: Tree) {
    (forall n :: n in t.bytes <==> n in t.kinds && n !in t.parents) && t.devices.Keys <= t.bytes.Keys
  }

  /** A well-formed namespace. */
  ghost predicate TreeOk(t: Tree) {
    DirsOk(t) && LinksOk(t) && NamesOk(t) && BytesOk(t)
  }

  /** Exactly one name leads to directory `d`, and it stands in the directory's parent. */
  ghost predicate NamedOnce(t: Tree, d: nat)
    requires d in t.parents
  {
    exists name :: Keys(t, d) == {(t.parents[d], name)}
  }

  // --- elementary changes ----------------------------------------------------

  ghost function Link(t: Tree, d: nat, name: Name, n: nat): Tree { t.(links := t.links[(d, name) := n]) }
  ghost function Unlink(t: Tree, d: nat, name: Name): Tree { t.(links := t.links - {(d, name)}) }
  ghost function Forget(t: Tree, n: nat): Tree {
    t.(kinds := t.kinds - {n}, parents := t.parents - {n}, bytes := t.bytes - {n}, devices := t.devices - {n})
  }
  ghost function Birth(t: Tree, n: nat, kind: FileType): Tree {
    t.(kinds := t.kinds[n := kind], bytes := t.bytes[n := []], devices := t.devices - {n})
  }
  ghost function Adopt(t: Tree, d: nat, parent: nat): Tree {
    t.(parents := t.parents[d := parent], bytes := t.bytes - {d}, devices := t.devices - {d})
  }
  /** New contents; a device that is written loses its numbers. */
  ghost function Fill(t: Tree, n: nat, data: seq<byte>): Tree {
    t.(bytes := t.bytes[n := data], devices := t.devices - {n})
  }
  ghost function Equip(t: Tree, n: nat, slots: seq<nat>): Tree { t.(devices := t.devices[n := slots]) }

  lemma KeysAfterLink(t: Tree, d: nat, name: Name, n: nat, m: nat)
    requires (d, name) !in t.links
    ensures Keys(Link(t, d, name, n), m) == if m == n then Keys(t, m) + {(d, name)} else Keys(t, m)
    ensures (d, name) !in Keys(t, m)
  {
    var a, b := Keys(t, m), Keys(Link(t, d, name, n), m);
    if m == n {
      assert forall k :: k in b <==> k in a || k == (d, name);
    } else {
      assert forall k :: k in b <==> k in a;
    }
  }

  lemma RefsAfterLink(t: Tree, d: nat, name: Name, n: nat, m: nat)
    requires (d, name) !in t.links
    ensures Refs(Link(t, d, name, n), m) == Refs(t, m) + One(m == n)
  {
    hide Keys;
    KeysAfterLink(t, d, name, n, m);
    assert Children(Link(t, d, name, n), m) == Children(t, m);
  }

  lemma KeysAfterUnlink(t: Tree, d: nat, name: Name, m: nat)
    requires (d, name) in t.links
    ensures Keys(Unlink(t, d, name), m) == Keys(t, m) - {(d, name)}
    ensures (d, name) in Keys(t, m) <==> t.links[(d, name)] == m
  {
    var a, b := Keys(t, m), Keys(Unlink(t, d, name), m);
    assert forall k :: k in b <==> k in a && k != (d, name);
  }

  lemma RefsAfterUnlink(t: Tree, d: nat, name: Name, m: nat)
    requires (d, name) in t.links
    ensures Refs(Unlink(t, d, name), m) == Refs(t, m) - One(t.links[(d, name)] == m)
  {
    hide Keys;
    KeysAfterUnlink(t, d, name, m);
    assert Children(Unlink(t, d, name), m) == Children(t, m);
  }

  lemma KeysSameLinks(t: Tree, u: Tree, m: nat)
    requires t.links == u.links
    ensures Keys(t, m) == Keys(u, m)
  {
  }

  lemma ChildrenAfterAdopt(t: Tree, d: nat, p: nat, m: nat)
    ensures Children(Adopt(t, d, p), m) - {d} == Children(t, m) - {d}
    ensures d in Children(Adopt(t, d, p), m) <==> m == p
    ensures d in Children(t, m) <==> d in t.parents && m == t.parents[d]
  {
    var a, b := Children(t, m), Children(Adopt(t, d, p), m);
    assert forall x | x != d :: x in b <==> x in a;
  }

  lemma Without(s: set<nat>, d: nat)
    ensures |s| == |s - {d}| + One(d in s)
  {
    if d in s { assert s == (s - {d}) + {d}; } else { assert s == s - {d}; }
  }

  lemma RefsAfterAdopt(t: Tree, d: nat, p: nat, m: nat)
    ensures Refs(Adopt(t, d, p), m) ==
              Refs(t, m) + One(m == p) + One(m == d && d !in t.parents) - One(d in t.parents && m == t.parents[d])
  {
    hide Keys, Children;
    var u := Adopt(t, d, p);
    KeysSameLinks(t, u, m);
    ChildrenAfterAdopt(t, d, p, m);
    Without(Children(t, m), d);
    Without(Children(u, m), d);
  }

  lemma RefsAfterForget(t: Tree, n: nat, m: nat)
    ensures Keys(Forget(t, n), m) == Keys(t, m)
    ensures n !in t.parents ==> Refs(Forget(t, n), m) == Refs(t, m) && Children(Forget(t, n), m) == Children(t, m)
    ensures n in t.parents && m != n ==> Refs(Forget(t, n), m) == Refs(t, m) - One(m == t.parents[n])
  {
    hide Keys, Children;
    KeysSameLinks(t, Forget(t, n), m);
    ChildrenAfterForget(t, n, m);
    Without(Children(t, m), n);
    if n !in t.parents { assert Children(t, m) - {n} == Children(t, m); }
  }

  lemma ChildrenAfterForget(t: Tree, n: nat, m: nat)
    ensures Children(Forget(t, n), m) == Children(t, m) - {n}
    ensures n in Children(t, m) <==> n in t.parents && m == t.parents[n]
  {
    var a, b := Children(t, m), Children(Forget(t, n), m);
    assert forall x :: x in b <==> x in a && x != n;
  }

  // --- whole operations ------------------------------------------------------

  /** Nothing refers to an inode that does not exist. */
  lemma Unreferenced(t: Tree, n: nat)
    requires TreeOk(t) && n !in t.kinds
    ensures Refs(t, n) == 0 && Keys(t, n) == {} && n !in t.parents && Children(t, n) == {}
  {
    assert Keys(t, n) == {};
    assert Children(t, n) == {};
  }

  ghost function NewFile(t: Tree, d: nat, name: Name, n: nat, kind: FileType, data: seq<byte>): Tree {
    Link(Fill(Birth(t, n, kind), n, data), d, name, n)
  }

  lemma KeptName(t: Tree, u: Tree, x: nat)
    requires x in t.parents && x in u.parents && u.parents[x] == t.parents[x] && Keys(u, x) == Keys(t, x) && NamedOnce(t, x)
    ensures NamedOnce(u, x)
  {
  }

  /** The names, other than `n`'s, survive the addition of one name for `n`. */
  lemma OneMoreName(t: Tree, u: Tree, d: nat, name: Name, n: nat)
    requires TreeOk(t) && (d, name) !in t.links && u.links == t.links[(d, name) := n] && n != ROOT
    requires forall x | x in t.parents :: x in u.parents && u.parents[x] == t.parents[x]
    ensures Keys(u, ROOT) == {} && Keys(u, n) == Keys(t, n) + {(d, name)}
    ensures forall x | x in t.parents && x != ROOT && x != n :: NamedOnce(u, x)
    ensures forall x | x in t.kinds && x !in t.parents :: Keys(u, x) != {}
  {
    hide Keys, NamedOnce, BytesOk;
    KeysAfterLink(t, d, name, n, ROOT);
    KeysAfterLink(t, d, name, n, n);
    KeysSameLinks(u, Link(t, d, name, n), ROOT);
    KeysSameLinks(u, Link(t, d, name, n), n);
    forall x | x in t.parents && x != ROOT && x != n ensures NamedOnce(u, x) {
      KeysAfterLink(t, d, name, n, x);
      KeysSameLinks(u, Link(t, d, name, n), x);
      KeptName(t, u, x);
    }
    forall x | x in t.kinds && x !in t.parents ensures Keys(u, x) != {} {
      KeysAfterLink(t, d, name, n, x);
      KeysSameLinks(u, Link(t, d, name, n), x);
    }
  }

  /** Adding a name for a new inode, or another name for a file, keeps the names in order. */
  lemma NameAdded(t: Tree, u: Tree, d: nat, name: Name, n: nat)
    requires TreeOk(t) && (d, name) !in t.links && u.links == t.links[(d, name) := n] && n !in t.parents
    requires forall x | x in t.parents :: x in u.parents && u.parents[x] == t.parents[x]
    requires forall x | x in u.parents && x !in t.parents :: x == n && n !in t.kinds && u.parents[x] == d
    requires forall x | x in u.kinds && x !in t.kinds :: x == n
    ensures NamesOk(u)
  {
    hide Keys, NamedOnce, LinksOk, BytesOk;
    OneMoreName(t, u, d, name, n);
    if n in u.parents {
      NewKeys(t, u, d, name, n);
    }
  }

  lemma NewKeys(t: Tree, u: Tree, d: nat, name: Name, n: nat)
    requires TreeOk(t) && n !in t.kinds && Keys(u, n) == Keys(t, n) + {(d, name)} && n in u.parents && u.parents[n] == d
    ensures NamedOnce(u, n)
  {
    Unreferenced(t, n);
    assert Keys(u, n) == {(u.parents[n], name)};
  }

  lemma NewFileOk(t: Tree, d: nat, name: Name, n: nat, kind: FileType, data: seq<byte>)
    requires TreeOk(t) && d in t.parents && PlainName(name) && (d, name) !in t.links && n !in t.kinds && kind != Directory
    ensures TreeOk(NewFile(t, d, name, n, kind, data))
  {
    hide Keys, NamedOnce, NamesOk, BytesOk, LinksOk;
    var u := NewFile(t, d, name, n, kind, data);
    NewFileNames(t, d, name, n, kind, data);
    NewFileBytes(t, d, name, n, kind, data);
    NameAdded(t, u, d, name, n);
  }

  lemma NewFileBytes(t: Tree, d: nat, name: Name, n: nat, kind: FileType, data: seq<byte>)
    requires BytesOk(t) && n !in t.kinds && n !in t.parents
    ensures BytesOk(NewFile(t, d, name, n, kind, data))
  {
  }

  /** A new device node. */
  ghost function NewNode(t: Tree, d: nat, name: Name, n: nat, kind: FileType, slots: seq<nat>): Tree {
    Equip(NewFile(t, d, name, n, kind, []), n, slots)
  }

  lemma NewNodeOk(t: Tree, d: nat, name: Name, n: nat, kind: FileType, slots: seq<nat>)
    requires TreeOk(t) && d in t.parents && PlainName(name) && (d, name) !in t.links && n !in t.kinds && kind != Directory
    ensures TreeOk(NewNode(t, d, name, n, kind, slots))
  {
    hide TreeOk, NewFile;
    NewFileOk(t, d, name, n, kind, []);
    NewFileHolds(t, d, name, n, kind, []);
    EquippedOk(NewFile(t, d, name, n, kind, []), n, slots);
  }

  lemma NewFileHolds(t: Tree, d: nat, name: Name, n: nat, kind: FileType, data: seq<byte>)
    ensures n in NewFile(t, d, name, n, kind, data).bytes
  {
  }

  lemma EquippedOk(t: Tree, n: nat, slots: seq<nat>)
    requires TreeOk(t) && n in t.bytes
    ensures TreeOk(Equip(t, n, slots))
  {
    hide Keys, NamedOnce;
    var u := Equip(t, n, slots);
    forall m: nat ensures Keys(u, m) == Keys(t, m) { KeysSameLinks(t, u, m); }
    forall d | d in t.parents && d != ROOT ensures NamedOnce(u, d) { KeptName(t, u, d); }
  }

  lemma NewFileNames(t: Tree, d: nat, name: Name, n: nat, kind: FileType, data: seq<byte>)
    requires TreeOk(t) && d in t.parents && PlainName(name) && (d, name) !in t.links && n !in t.kinds
    ensures LinksOk(NewFile(t, d, name, n, kind, data))
  {
    hide Keys, NamedOnce, NamesOk, BytesOk;
  }

  ghost function NewDir(t: Tree, d: nat, name: Name, n: nat): Tree { Link(Adopt(Birth(t, n, Directory), n, d), d, name, n) }

  lemma NewDirOk(t: Tree, d: nat, name: Name, n: nat)
    requires TreeOk(t) && d in t.parents && PlainName(name) && (d, name) !in t.links && n !in t.kinds
    ensures TreeOk(NewDir(t, d, name, n))
  {
    hide Keys, NamedOnce, NamesOk, BytesOk, LinksOk;
    var u := NewDir(t, d, name, n);
    NewDirNames(t, d, name, n);
    NewDirBytes(t, d, name, n);
    NewDirShape(t, d, name, n);
    NameAdded(t, u, d, name, n);
  }

  lemma NewDirShape(t: Tree, d: nat, name: Name, n: nat)
    requires DirsOk(t) && d in t.parents && n !in t.kinds
    ensures DirsOk(NewDir(t, d, name, n))
  {
    var u := NewDir(t, d, name, n);
    assert u.parents == t.parents[n := d];
  }

  lemma NewDirBytes(t: Tree, d: nat, name: Name, n: nat)
    requires BytesOk(t) && n !in t.kinds
    ensures BytesOk(NewDir(t, d, name, n))
  {
  }

  lemma NewDirNames(t: Tree, d: nat, name: Name, n: nat)
    requires TreeOk(t) && d in t.parents && PlainName(name) && (d, name) !in t.links && n !in t.kinds
    ensures LinksOk(NewDir(t, d, name, n)) && n !in t.parents
  {
    hide Keys, NamedOnce, NamesOk, BytesOk;
  }

  lemma LinkOk(t: Tree, d: nat, name: Name, n: nat)
    requires TreeOk(t) && d in t.parents && PlainName(name) && (d, name) !in t.links && n in t.kinds && n !in t.parents
    ensures TreeOk(Link(t, d, name, n))
  {
    hide Keys, NamedOnce, NamesOk;
    NameAdded(t, Link(t, d, name, n), d, name, n);
  }

  /** Dropping one name of a file, and the file with it when it was the last. */
  ghost function DropFile(t: Tree, d: nat, name: Name): Tree
    requires (d, name) in t.links
  {
    var u := Unlink(t, d, name);
    if Keys(u, t.links[(d, name)]) == {} then Forget(u, t.links[(d, name)]) else u
  }

  lemma OneLessName(t: Tree, u: Tree, d: nat, name: Name)
    requires TreeOk(t) && (d, name) in t.links && u.links == t.links - {(d, name)}
    ensures Keys(u, ROOT) == {} && Keys(u, t.links[(d, name)]) == Keys(t, t.links[(d, name)]) - {(d, name)}
    ensures forall x | x in t.parents && x in u.parents && u.parents[x] == t.parents[x] && x != ROOT && x != t.links[(d, name)] :: NamedOnce(u, x)
    ensures forall x | x in t.kinds && x !in t.parents && x != t.links[(d, name)] :: Keys(u, x) != {}
  {
    hide Keys, NamedOnce, BytesOk;
    var n := t.links[(d, name)];
    KeysAfterUnlink(t, d, name, ROOT);
    KeysAfterUnlink(t, d, name, n);
    KeysSameLinks(u, Unlink(t, d, name), ROOT);
    KeysSameLinks(u, Unlink(t, d, name), n);
    forall x | x in t.parents && x in u.parents && u.parents[x] == t.parents[x] && x != ROOT && x != n ensures NamedOnce(u, x) {
      KeysAfterUnlink(t, d, name, x);
      KeysSameLinks(u, Unlink(t, d, name), x);
      KeptName(t, u, x);
    }
    forall x | x in t.kinds && x !in t.parents && x != n ensures Keys(u, x) != {} {
      KeysAfterUnlink(t, d, name, x);
      KeysSameLinks(u, Unlink(t, d, name), x);
    }
  }

  lemma DropFileOk(t: Tree, d: nat, name: Name)
    requires TreeOk(t) && (d, name) in t.links && t.links[(d, name)] !in t.parents
    ensures TreeOk(DropFile(t, d, name))
  {
    hide Keys, NamedOnce, NamesOk, LinksOk, BytesOk;
    var n := t.links[(d, name)];
    var u := DropFile(t, d, name);
    NameDropped(t, u, d, name);
    if Keys(Unlink(t, d, name), n) == {} { SoleTarget(t, d, name); }
    DroppedLinks(t, d, name);
    DroppedBytes(t, d, name);
  }

  lemma DroppedLinks(t: Tree, d: nat, name: Name)
    requires LinksOk(t) && (d, name) in t.links && t.links[(d, name)] !in t.parents
    requires Keys(Unlink(t, d, name), t.links[(d, name)]) == {} ==>
               forall k | k in t.links && k != (d, name) :: t.links[k] != t.links[(d, name)]
    ensures LinksOk(DropFile(t, d, name))
  {
    hide Keys;
  }

  lemma DroppedBytes(t: Tree, d: nat, name: Name)
    requires BytesOk(t) && (d, name) in t.links && t.links[(d, name)] !in t.parents
    ensures BytesOk(DropFile(t, d, name))
  {
    hide Keys;
  }

  lemma NameDropped(t: Tree, u: Tree, d: nat, name: Name)
    requires TreeOk(t) && (d, name) in t.links && t.links[(d, name)] !in t.parents && u == DropFile(t, d, name)
    ensures NamesOk(u)
  {
    hide Keys, NamedOnce, LinksOk, BytesOk;
    OneLessName(t, u, d, name);
    KeysSameLinks(u, Unlink(t, d, name), t.links[(d, name)]);
  }

  /** A file's last name is the one whose removal leaves no reference. */
  lemma LastName(t: Tree, d: nat, name: Name)
    requires TreeOk(t) && (d, name) in t.links && t.links[(d, name)] !in t.parents
    ensures var n := t.links[(d, name)]; 0 < Refs(t, n) && (Refs(t, n) == 1 <==> Keys(Unlink(t, d, name), n) == {})
  {
    hide Keys, NamesOk, LinksOk;
    var n := t.links[(d, name)];
    KeysAfterUnlink(t, d, name, n);
    NoChildren(t, n);
    OneLeft(Keys(t, n), (d, name));
  }

  lemma OneLeft(s: set<Key>, k: Key)
    requires k in s
    ensures 0 < |s| && (|s| == 1 <==> s - {k} == {})
  {
    assert s == (s - {k}) + {k};
  }

  lemma NoChildren(t: Tree, n: nat)
    requires TreeOk(t) && n !in t.parents
    ensures Children(t, n) == {}
  {
  }

  /** After its last name is gone, no link leads to the inode. */
  lemma SoleTarget(t: Tree, d: nat, name: Name)
    requires (d, name) in t.links && Keys(Unlink(t, d, name), t.links[(d, name)]) == {}
    ensures forall k | k in t.links && k != (d, name) :: t.links[k] != t.links[(d, name)]
  {
    var u := Unlink(t, d, name);
    forall k | k in t.links && k != (d, name) ensures t.links[k] != t.links[(d, name)] {
      assert k !in Keys(u, t.links[(d, name)]);
    }
  }

  /** Dropping an empty directory. */
  ghost function DropDir(t: Tree, d: nat, name: Name): Tree
    requires (d, name) in t.links
  {
    Forget(Unlink(t, d, name), t.links[(d, name)])
  }

  ghost predicate EmptyDir(t: Tree, n: nat) {
    forall k | k in t.links :: k.0 != n
  }

  lemma NoSubdirs(t: Tree, n: nat)
    requires TreeOk(t) && n in t.parents && n != ROOT && EmptyDir(t, n)
    ensures forall x | x in t.parents :: t.parents[x] != n
    ensures Children(t, n) == {}
  {
    forall x | x in t.parents ensures t.parents[x] != n {
      if x != ROOT { NamedInParent(t, x); }
    }
  }

  lemma NamedInParent(t: Tree, x: nat)
    requires TreeOk(t) && x in t.parents && x != ROOT
    ensures !EmptyDir(t, t.parents[x])
  {
    assert NamedOnce(t, x);
    var name :| Keys(t, x) == {(t.parents[x], name)};
    assert (t.parents[x], name) in Keys(t, x);
  }

  lemma NamedBy(t: Tree, d: nat, name: Name)
    requires TreeOk(t) && (d, name) in t.links && t.links[(d, name)] in t.parents
    ensures t.links[(d, name)] != ROOT && d == t.parents[t.links[(d, name)]] && Keys(t, t.links[(d, name)]) == {(d, name)}
  {
    var n := t.links[(d, name)];
    assert (d, name) in Keys(t, n);
    assert NamedOnce(t, n);
  }

  lemma DropDirOk(t: Tree, d: nat, name: Name)
    requires TreeOk(t) && (d, name) in t.links && t.links[(d, name)] in t.parents && EmptyDir(t, t.links[(d, name)])
    ensures TreeOk(DropDir(t, d, name))
  {
    hide Keys, NamedOnce, NamesOk, Children;
    var n, u := t.links[(d, name)], DropDir(t, d, name);
    NamedBy(t, d, name);
    NoSubdirs(t, n);
    assert DirsOk(u);
    KeysAfterUnlink(t, d, name, n);
    SoleTarget(t, d, name);
    assert LinksOk(u);
    DirNameDropped(t, u, d, name);
  }

  lemma DirNameDropped(t: Tree, u: Tree, d: nat, name: Name)
    requires TreeOk(t) && (d, name) in t.links && t.links[(d, name)] in t.parents && u == DropDir(t, d, name)
    ensures NamesOk(u)
  {
    hide Keys, NamedOnce, LinksOk, BytesOk;
    OneLessName(t, u, d, name);
  }

  /** A name moved, possibly between directories; a directory takes its new parent along. */
  ghost function Move(t: Tree, sd: nat, sname: Name, dd: nat, dname: Name): Tree
    requires (sd, sname) in t.links
  {
    var n := t.links[(sd, sname)];
    var u := Link(t, dd, dname, n);
    Unlink(if n in t.parents then Adopt(u, n, dd) else u, sd, sname)
  }

  lemma KeysAfterMove(t: Tree, sd: nat, sname: Name, dd: nat, dname: Name, m: nat)
    requires (sd, sname) in t.links && (dd, dname) !in t.links
    ensures var n := t.links[(sd, sname)];
      Keys(Move(t, sd, sname, dd, dname), m) == if m == n then (Keys(t, m) + {(dd, dname)}) - {(sd, sname)} else Keys(t, m)
  {
    hide Keys;
    var n := t.links[(sd, sname)];
    var u := Link(t, dd, dname, n);
    KeysAfterLink(t, dd, dname, n, m);
    KeysAfterUnlink(u, sd, sname, m);
    KeysSameLinks(Move(t, sd, sname, dd, dname), Unlink(u, sd, sname), m);
  }

  lemma MoveOk(t: Tree, sd: nat, sname: Name, dd: nat, dname: Name)
    requires TreeOk(t) && (sd, sname) in t.links && (dd, dname) !in t.links && dd in t.parents && PlainName(dname)
    ensures TreeOk(Move(t, sd, sname, dd, dname))
  {
    hide Keys, NamedOnce, NamesOk, Children, LinksOk, BytesOk, DirsOk, Move;
    if t.links[(sd, sname)] in t.parents { NamedBy(t, sd, sname); } else { RootIsDir(t); }
    MovedDirs(t, sd, sname, dd, dname);
    MovedLinks(t, sd, sname, dd, dname);
    MovedFiles(t, sd, sname, dd, dname);
    MovedNames(t, sd, sname, dd, dname);
  }

  lemma MovedDirs(t: Tree, sd: nat, sname: Name, dd: nat, dname: Name)
    requires DirsOk(t) && (sd, sname) in t.links && dd in t.parents && t.links[(sd, sname)] != ROOT
    ensures DirsOk(Move(t, sd, sname, dd, dname))
  {
  }

  lemma MovedLinks(t: Tree, sd: nat, sname: Name, dd: nat, dname: Name)
    requires LinksOk(t) && (sd, sname) in t.links && dd in t.parents && PlainName(dname)
    ensures LinksOk(Move(t, sd, sname, dd, dname))
  {
  }

  lemma MovedFiles(t: Tree, sd: nat, sname: Name, dd: nat, dname: Name)
    requires BytesOk(t) && (sd, sname) in t.links
    ensures BytesOk(Move(t, sd, sname, dd, dname))
  {
  }

  lemma MovedNames(t: Tree, sd: nat, sname: Name, dd: nat, dname: Name)
    requires TreeOk(t) && (sd, sname) in t.links && (dd, dname) !in t.links
    ensures NamesOk(Move(t, sd, sname, dd, dname))
  {
    hide Keys, NamedOnce, LinksOk, BytesOk;
    var n, u := t.links[(sd, sname)], Move(t, sd, sname, dd, dname);
    if n in t.parents { NamedBy(t, sd, sname); } else { RootIsDir(t); }
    KeysAfterMove(t, sd, sname, dd, dname, ROOT);
    forall x | x in u.parents && x != ROOT ensures NamedOnce(u, x) {
      KeysAfterMove(t, sd, sname, dd, dname, x);
      if x == n { MovedOnce(u, x, dname); } else { KeptName(t, u, x); }
    }
    forall x | x in u.kinds && x !in u.parents ensures Keys(u, x) != {} {
      KeysAfterMove(t, sd, sname, dd, dname, x);
    }
  }

  lemma RootIsDir(t: Tree)
    requires TreeOk(t)
    ensures ROOT in t.parents
  {
  }

  lemma MovedOnce(u: Tree, x: nat, name: Name)
    requires x in u.parents && Keys(u, x) == {(u.parents[x], name)}
    ensures NamedOnce(u, x)
  {
  }

  /** A move changes link counts only where a directory changes parent. */
  lemma RefsAfterMove(t: Tree, sd: nat, sname: Name, dd: nat, dname: Name, m: nat)
    requires TreeOk(t) && (sd, sname) in t.links && (dd, dname) !in t.links
    ensures var n := t.links[(sd, sname)];
      Refs(Move(t, sd, sname, dd, dname), m) == Refs(t, m) + (if n in t.parents then One(m == dd) - One(m == sd) else 0)
  {
    hide TreeOk, Refs, Keys;
    var n := t.links[(sd, sname)];
    var u := Link(t, dd, dname, n);
    RefsAfterLink(t, dd, dname, n, m);
    if n in t.parents {
      NamedBy(t, sd, sname);
      RefsAfterAdopt(u, n, dd, m);
      RefsAfterUnlink(Adopt(u, n, dd), sd, sname, m);
    } else {
      RefsAfterUnlink(u, sd, sname, m);
    }
  }
}
