/** Links, removal, renaming and resizing, on the same invariant. */
module Removal {
  import opened Arith
  import opened Geometry
  import opened VolumeState
  import opened Alloc
  import opened Inodes
  import opened Reader
  import opened Write
  import opened Dir
  import opened Directory
  import opened DirOps
  import opened InodeAlloc
  import opened Tree
  import opened ListingOps
  import opened Mirror
  import opened Steps
  import opened Births
  import opened Namespace

  // --- hard links ------------------------------------------------------------

  lemma LinkLinks(v: Vol, w: Vol, t: Tree, d: nat, name: Name, n: nat)
    requires LinksMatch(v, t) && (d, name) !in t.links && n in t.kinds && n < |v.inodes|
    requires SameBut(v, w, n) && w.inodes[n].nlink == v.inodes[n].nlink + 1
    ensures LinksMatch(w, Link(t, d, name, n))
  {
    hide Refs;
    var u := Link(t, d, name, n);
    forall m | m in u.kinds ensures m < |w.inodes| && w.inodes[m].nlink == Refs(u, m) {
      RefsAfterLink(t, d, name, n, m);
    }
  }

  /** `link_in_parent`: another name for a file. */
  method LinkInParent(vol: Volume, parent: nat, name: Name, target: nat, ghost t: Tree) returns (r: Result<()>)
    requires FsOk(vol.View(), t) && parent in t.parents && PlainName(name) && (parent, name) !in t.links && target in t.kinds
    modifies vol, vol.image
    ensures r.Ok? ==> target !in t.parents && FsOk(vol.View(), Link(t, parent, name, target))
    ensures target in t.parents ==> r.Err? && vol.View() == old(vol.View())
    ensures r.Err? && target !in t.parents ==> NoSpace(vol.g, vol.own) || Refs(t, target) + 1 == MAXLINKS
  {
    hide NoSpace, FsOk, Mirrors, LinksMatch, TreeOk, Refs;
    ghost var v := vol.View();
    Record(v, t, target);
    FsParts(v, t);
    if vol.inodes[target].kind == Directory { return Err; }
    var links := vol.inodes[target].nlink;
    var entered := Enter(vol, parent, name, target, t);
    if entered.Err? || links + 1 >= MAXLINKS { return Err; }
    SetLinks(vol, target, links + 1, Link(t, parent, name, target));
    LinkLinks(v, vol.View(), t, parent, name, target);
    LinkOk(t, parent, name, target);
    FsIs(vol.View(), Link(t, parent, name, target));
    return Ok(());
  }

  // --- files -----------------------------------------------------------------

  lemma DropFileLinks(v: Vol, w: Vol, t: Tree, d: nat, name: Name)
    requires TreeOk(t) && LinksMatch(v, t) && (d, name) in t.links && t.links[(d, name)] !in t.parents
    requires SameBut(v, w, t.links[(d, name)])
    requires Keys(Unlink(t, d, name), t.links[(d, name)]) != {} ==>
               t.links[(d, name)] < |w.inodes| && w.inodes[t.links[(d, name)]].nlink + 1 == v.inodes[t.links[(d, name)]].nlink
    ensures LinksMatch(w, DropFile(t, d, name))
  {
    hide TreeOk, Refs, Keys;
    var n, u := t.links[(d, name)], DropFile(t, d, name);
    forall m | m in u.kinds ensures m < |w.inodes| && w.inodes[m].nlink == Refs(u, m) {
      RefsAfterUnlink(t, d, name, m);
      RefsAfterForget(Unlink(t, d, name), n, m);
    }
  }

  lemma Named(v: Vol, t: Tree, d: nat, name: Name)
    requires FsOk(v, t) && (d, name) in t.links
    ensures d in t.parents && t.links[(d, name)] in t.kinds && PlainName(name)
  {
    hide Mirrors, LinksMatch, NamesOk;
  }

  /** `unlink_in_parent`: drops a name, and the file with its last name. */
  method UnlinkInParent(vol: Volume, parent: nat, name: Name, ghost t: Tree) returns (r: Result<nat>)
    requires FsOk(vol.View(), t) && parent in t.parents && PlainName(name)
    modifies vol, vol.image
    ensures r.Ok? <==> (parent, name) in t.links && t.links[(parent, name)] !in t.parents
    ensures r.Ok? ==> r.value == t.links[(parent, name)] && FsOk(vol.View(), DropFile(t, parent, name))
    ensures r.Err? ==> vol.View() == old(vol.View())
  {
    hide FsOk, Mirrors, LinksMatch, TreeOk, Refs, Keys;
    ghost var v := vol.View();
    FsParts(v, t);
    var found := Find(vol, parent, name, t);
    if found.None? { return Err; }
    var n := found.value;
    Named(v, t, parent, name);
    Record(v, t, n);
    if vol.inodes[n].kind == Directory { return Err; }
    LastName(t, parent, name);
    var links := vol.inodes[n].nlink;
    var struck := Strike(vol, parent, name, t);
    ghost var u := Unlink(t, parent, name);
    if links > 1 {
      SetLinks(vol, n, links - 1, u);
    } else {
      var released := ReleaseInode(vol, n, false, u);
    }
    DropFileLinks(v, vol.View(), t, parent, name);
    DropFileOk(t, parent, name);
    FsIs(vol.View(), DropFile(t, parent, name));
    return Ok(n);
  }

  // --- directories -----------------------------------------------------------

  lemma TiledDir(v: Vol, n: nat)
    requires IsDir(v, n)
    ensures DirTiled(Contents(v.g, v.img, v.inodes[n]))
  {
  }

  /** A listing of nothing but dots is an empty directory. */
  lemma EmptyListing(v: Vol, t: Tree, n: nat)
    requires Mirrors(v, t) && TreeOk(t) && n in t.parents && IsDir(v, n)
    ensures (forall e | e in Listing(v, n) :: e.name == DOT || e.name == DOTDOT) <==> EmptyDir(t, n)
  {
    hide Sound, CountsOk, TableOk, BytesMatch, IsDir, Listing, DirsOk, NamesOk, BytesOk;
    assert Lists(Listing(v, n), t, n);
    var es := Listing(v, n);
    forall k | k in t.links && k.0 == n ensures Entry(k.1, t.links[k]) in es && PlainName(k.1) {
      assert Resolve(t, n, k.1) == Some(t.links[k]);
    }
    if !forall e | e in es :: e.name == DOT || e.name == DOTDOT {
      var e :| e in es && !(e.name == DOT || e.name == DOTDOT);
      assert (n, e.name) in t.links;
    }
  }

  /** One link less, stopping at none. */
  function Fewer(k: nat): nat { if k == 0 then 0 else k - 1 }

  lemma DropDirLinks(v: Vol, w: Vol, t: Tree, d: nat, name: Name)
    requires TreeOk(t) && LinksMatch(v, t) && (d, name) in t.links && t.links[(d, name)] in t.parents && d != t.links[(d, name)]
    requires |w.inodes| == |v.inodes| && d < |w.inodes| && d in t.kinds && w.inodes[d].nlink == Fewer(v.inodes[d].nlink)
    requires forall m | 0 <= m < |v.inodes| && m != t.links[(d, name)] && m != d :: SameIdentity(v.inodes[m], w.inodes[m])
    ensures LinksMatch(w, DropDir(t, d, name))
  {
    hide TreeOk, Refs, Keys;
    var n, u := t.links[(d, name)], DropDir(t, d, name);
    NamedBy(t, d, name);
    forall m | m in u.kinds ensures m < |w.inodes| && w.inodes[m].nlink == Refs(u, m) {
      RefsAfterUnlink(t, d, name, m);
      RefsAfterForget(Unlink(t, d, name), n, m);
    }
  }

  /** `rmdir_in_parent`: removes an empty directory. */
  method RmdirInParent(vol: Volume, parent: nat, name: Name, ghost t: Tree) returns (r: Result<nat>)
    requires FsOk(vol.View(), t) && parent in t.parents && PlainName(name)
    modifies vol, vol.image
    ensures r.Ok? <==> (parent, name) in t.links && t.links[(parent, name)] in t.parents && EmptyDir(t, t.links[(parent, name)])
    ensures r.Ok? ==> r.value == t.links[(parent, name)] && FsOk(vol.View(), DropDir(t, parent, name))
    ensures r.Err? ==> vol.View() == old(vol.View())
  {
    hide FsOk, Mirrors, LinksMatch, TreeOk, Refs, Keys, IsDir, Listing, Lists, Sound, Readable, Walks, Contents, Entries, DirTiled, ValidGeometry;
    ghost var v := vol.View();
    FsParts(v, t);
    var found := Find(vol, parent, name, t);
    if found.None? { return Err; }
    var n := found.value;
    Named(v, t, parent, name);
    Record(v, t, n);
    Record(v, t, parent);
    if vol.inodes[n].kind != Directory { return Err; }
    DirAt(v, t, n);
    EmptyListing(v, t, n);
    ListingReads(v, t.kinds.Keys, n);
    TiledDir(v, n);
    var empty := DirectoryIsEmpty(vol, vol.inodes[n]);
    if !empty { return Err; }
    var links := vol.inodes[parent].nlink;
    var struck := Strike(vol, parent, name, t);
    ghost var u := Unlink(t, parent, name);
    SetLinks(vol, parent, Fewer(links), u);
    var released := ReleaseInode(vol, n, true, u);
    DropDirLinks(v, vol.View(), t, parent, name);
    DropDirOk(t, parent, name);
    FsIs(vol.View(), DropDir(t, parent, name));
    return Ok(n);
  }

  // --- renaming --------------------------------------------------------------

  /** The target of a rename out of the way, if there is one. */
  ghost function Cleared(t: Tree, d: nat, name: Name): Tree {
    if (d, name) !in t.links then t
    else if t.links[(d, name)] in t.parents then DropDir(t, d, name)
    else DropFile(t, d, name)
  }

  /** The rename has nothing to do: same place, or two names of one inode. */
  ghost predicate Moot(t: Tree, sd: nat, sname: Name, dd: nat, dname: Name) {
    || (sd == dd && sname == dname)
    || ((sd, sname) in t.links && (dd, dname) in t.links && t.links[(sd, sname)] == t.links[(dd, dname)])
  }

  /** What may be renamed: an existing name, onto nothing, a file onto a file, a directory onto an empty one. */
  ghost predicate Renamable(t: Tree, sd: nat, sname: Name, dd: nat, dname: Name) {
    && (sd, sname) in t.links
    && ((dd, dname) in t.links ==>
          var n, m := t.links[(sd, sname)], t.links[(dd, dname)];
          (n in t.parents <==> m in t.parents) && (m in t.parents ==> EmptyDir(t, m)))
  }

  /** The tree after a successful rename. */
  ghost function Renamed(t: Tree, sd: nat, sname: Name, dd: nat, dname: Name): Tree
    requires Moot(t, sd, sname, dd, dname) || (sd, sname) in Cleared(t, dd, dname).links
  {
    if Moot(t, sd, sname, dd, dname) then t else Move(Cleared(t, dd, dname), sd, sname, dd, dname)
  }

  /** Clearing the target leaves the source, its kind and both directories in place. */
  lemma ClearedKeeps(t: Tree, sd: nat, sname: Name, dd: nat, dname: Name)
    requires TreeOk(t) && dd in t.parents && Renamable(t, sd, sname, dd, dname) && !Moot(t, sd, sname, dd, dname)
    ensures var u := Cleared(t, dd, dname);
      && (dd, dname) !in u.links && (sd, sname) in u.links && u.links[(sd, sname)] == t.links[(sd, sname)]
      && dd in u.parents && sd in u.parents && u.links[(sd, sname)] in u.kinds
      && (u.links[(sd, sname)] in u.parents <==> t.links[(sd, sname)] in t.parents)
  {
    hide Keys, NamesOk, BytesOk;
    if (dd, dname) in t.links && t.links[(dd, dname)] in t.parents {
      assert t.links[(dd, dname)] != sd && t.links[(dd, dname)] != dd;
    }
  }

  method MoveEntry(vol: Volume, sd: nat, sname: Name, dd: nat, dname: Name, n: nat, directory: bool, ghost t: Tree) returns (r: Result<()>)
    requires FsOk(vol.View(), t) && (sd, sname) in t.links && t.links[(sd, sname)] == n && directory == (n in t.parents)
    requires dd in t.parents && (dd, dname) !in t.links && PlainName(dname)
    modifies vol, vol.image
    ensures r.Ok? ==> FsOk(vol.View(), Move(t, sd, sname, dd, dname))
    ensures r.Err? ==> NoSpace(vol.g, vol.own) || (directory && sd != dd && Refs(t, dd) + 1 == MAXLINKS)
  {
    hide NoSpace, FsOk, Mirrors, LinksMatch, TreeOk, Refs, Keys;
    ghost var v := vol.View();
    FsParts(v, t);
    Named(v, t, sd, sname);
    Record(v, t, n);
    Record(v, t, sd);
    Record(v, t, dd);
    var entered := Enter(vol, dd, dname, n, t);
    if entered.Err? { return Err; }
    ghost var u := Link(t, dd, dname, n);
    if directory && sd != dd {
      var redirected := Redirect(vol, n, dd, u);
      ghost var u1 := Adopt(u, n, dd);
      SetLinks(vol, sd, Fewer(vol.inodes[sd].nlink), u1);
      if vol.inodes[dd].nlink + 1 >= MAXLINKS { return Err; }
      SetLinks(vol, dd, vol.inodes[dd].nlink + 1, u1);
      u := u1;
    }
    var struck := Strike(vol, sd, sname, u);
    StillThere(t, sd, sname, dd, dname, n);
    ghost var w := vol.View();
    assert Mirrors(w, Move(t, sd, sname, dd, dname)) by { SameParent(t, sd, sname, dd, dname); }
    MoveLinks(v, w, t, sd, sname, dd, dname);
    MoveOk(t, sd, sname, dd, dname);
    FsIs(w, Move(t, sd, sname, dd, dname));
    return Ok(());
  }

  lemma StillThere(t: Tree, sd: nat, sname: Name, dd: nat, dname: Name, n: nat)
    requires (sd, sname) in t.links && (dd, dname) !in t.links
    ensures (sd, sname) in Link(t, dd, dname, n).links
  {
  }

  /** Inside one directory the moved directory keeps its parent. */
  lemma SameParent(t: Tree, sd: nat, sname: Name, dd: nat, dname: Name)
    requires TreeOk(t) && (sd, sname) in t.links
    ensures var n := t.links[(sd, sname)]; var u := Link(t, dd, dname, n);
      sd == dd && n in t.parents ==> Adopt(u, n, dd) == u
  {
    hide Keys, LinksOk, NamesOk;
    var n := t.links[(sd, sname)];
    if sd == dd && n in t.parents {
      NamedBy(t, sd, sname);
      assert t.parents[n := dd] == t.parents;
      assert t.bytes - {n} == t.bytes;
      assert t.devices - {n} == t.devices;
    }
  }

  lemma MoveLinks(v: Vol, w: Vol, t: Tree, sd: nat, sname: Name, dd: nat, dname: Name)
    requires TreeOk(t) && LinksMatch(v, t) && (sd, sname) in t.links && (dd, dname) !in t.links && |w.inodes| == |v.inodes|
    requires forall m: nat | m in t.kinds && m < |v.inodes| ::
               w.inodes[m].nlink == if t.links[(sd, sname)] in t.parents && sd != dd && m == sd then Fewer(v.inodes[m].nlink)
                                    else v.inodes[m].nlink + One(t.links[(sd, sname)] in t.parents && sd != dd && m == dd)
    ensures LinksMatch(w, Move(t, sd, sname, dd, dname))
  {
    hide TreeOk, Refs, Keys;
    var u := Move(t, sd, sname, dd, dname);
    forall m | m in u.kinds ensures m < |w.inodes| && w.inodes[m].nlink == Refs(u, m) {
      RefsAfterMove(t, sd, sname, dd, dname, m);
    }
  }

  /** `rename_in_parent`: clears the target, enters the new name, fixes "..", drops the old name. */
  method RenameInParent(vol: Volume, sd: nat, sname: Name, dd: nat, dname: Name, ghost t: Tree) returns (r: Result<()>)
    requires FsOk(vol.View(), t) && sd in t.parents && dd in t.parents && PlainName(sname) && PlainName(dname)
    modifies vol, vol.image
    ensures r.Ok? ==> Moot(t, sd, sname, dd, dname) || (Renamable(t, sd, sname, dd, dname) && (sd, sname) in Cleared(t, dd, dname).links)
    ensures r.Ok? ==> FsOk(vol.View(), Renamed(t, sd, sname, dd, dname))
    ensures Moot(t, sd, sname, dd, dname) ==> r.Ok? && vol.View() == old(vol.View())
    ensures !Moot(t, sd, sname, dd, dname) && !Renamable(t, sd, sname, dd, dname) ==> r.Err? && vol.View() == old(vol.View())
    ensures r.Err? && Renamable(t, sd, sname, dd, dname) ==> NoSpace(vol.g, vol.own) || Refs(Cleared(t, dd, dname), dd) + 1 == MAXLINKS
  {
    hide NoSpace, FsOk, Mirrors, LinksMatch, TreeOk, Refs, Keys, EmptyDir, DropDir, DropFile, Move;
    ghost var v := vol.View();
    if sd == dd && sname == dname { return Ok(()); }
    FsParts(v, t);
    var source := Find(vol, sd, sname, t);
    if source.None? { return Err; }
    var n := source.value;
    Named(v, t, sd, sname);
    Record(v, t, n);
    var directory := vol.inodes[n].kind == Directory;
    var target := Find(vol, dd, dname, t);
    if target.Some? {
      if target.value == n { return Ok(()); }
      Named(v, t, dd, dname);
      Record(v, t, target.value);
      var over := vol.inodes[target.value].kind == Directory;
      if directory != over { return Err; }
      var removed;
      if over {
        removed := RmdirInParent(vol, dd, dname, t);
      } else {
        removed := UnlinkInParent(vol, dd, dname, t);
      }
      if removed.Err? { return Err; }
    }
    ClearedKeeps(t, sd, sname, dd, dname);
    r := MoveEntry(vol, sd, sname, dd, dname, n, directory, Cleared(t, dd, dname));
  }

  // --- contents --------------------------------------------------------------

  lemma FillOk(v: Vol, w: Vol, t: Tree, n: nat, data: seq<byte>)
    requires FsOk(v, t) && n in t.bytes && Mirrors(w, Fill(t, n, data)) && SameTable(v, w)
    ensures FsOk(w, Fill(t, n, data))
  {
    hide Mirrors, Refs, NamesOk, LinksOk, DirsOk, SameTable;
    var u := Fill(t, n, data);
    forall m | m in u.kinds ensures m < |w.inodes| && w.inodes[m].nlink == Refs(u, m) {
      RefsOnlyNames(t, u, m);
      TableAt(v, w, m);
    }
    FilledTree(t, n, data);
  }

  lemma TableAt(v: Vol, w: Vol, m: nat)
    requires SameTable(v, w) && m < |v.inodes|
    ensures m < |w.inodes| && w.inodes[m].nlink == v.inodes[m].nlink
  {
  }

  lemma FilledTree(t: Tree, n: nat, data: seq<byte>)
    requires TreeOk(t) && n in t.bytes
    ensures TreeOk(Fill(t, n, data))
  {
    hide Keys, NamedOnce;
    var u := Fill(t, n, data);
    forall m: nat ensures Keys(u, m) == Keys(t, m) { KeysSameLinks(t, u, m); }
    forall d | d in t.parents && d != ROOT ensures NamedOnce(u, d) { KeptName(t, u, d); }
  }

  /** `set_inode_contents` on a file. */
  method WriteFile(vol: Volume, n: nat, data: seq<byte>, ghost t: Tree) returns (r: Result<()>)
    requires FsOk(vol.View(), t) && n in t.bytes
    modifies vol, vol.image
    ensures r.Ok? ==> FsOk(vol.View(), Fill(t, n, data))
    ensures r.Err? ==> NoSpace(vol.g, vol.own)
  {
    hide FsOk, Mirrors, NoSpace;
    ghost var v := vol.View();
    FsParts(v, t);
    r := StoreBytes(vol, n, data, t);
    if r.Ok? { FillOk(v, vol.View(), t, n, data); }
  }

  /** `data` cut or zero-extended to `size` bytes. */
  function Resized(data: seq<byte>, size: nat): (r: seq<byte>)
    ensures |r| == size && forall i | 0 <= i < size :: r[i] == if i < |data| then data[i] else 0
  {
    if size <= |data| then data[..size] else data + seq(size - |data|, _ => 0)
  }

  /** The tree after a resize; with the size unchanged nothing happens. */
  ghost function Sized(t: Tree, n: nat, size: nat): Tree
    requires n in t.bytes
  {
    if size == |t.bytes[n]| then t else Fill(t, n, Resized(t.bytes[n], size))
  }

  lemma SizedBytes(t: Tree, n: nat, size: nat)
    requires n in t.bytes
    ensures Sized(t, n, size).bytes == t.bytes[n := Resized(t.bytes[n], size)]
  {
    if size == |t.bytes[n]| {
      assert Resized(t.bytes[n], size) == t.bytes[n];
      assert t.bytes[n := t.bytes[n]] == t.bytes;
    }
  }

  /** `truncate`. */
  method Truncate(vol: Volume, n: nat, size: nat, ghost t: Tree) returns (r: Result<()>)
    requires FsOk(vol.View(), t) && n in t.bytes
    modifies vol, vol.image
    ensures r.Ok? ==> FsOk(vol.View(), Sized(t, n, size))
    ensures size == |t.bytes[n]| ==> r.Ok? && vol.View() == old(vol.View())
    ensures r.Err? ==> NoSpace(vol.g, vol.own)
  {
    hide NoSpace, FsOk, Mirrors, Resized, Contents, Readable, Walks, Fill;
    ghost var v := vol.View();
    FileReads(v, t, n);
    if vol.inodes[n].size == size {
      return Ok(());
    }
    var content := ReadInodeBytes(vol, vol.inodes[n]);
    r := WriteFile(vol, n, Resized(content, size), t);
  }

  lemma FileReads(v: Vol, t: Tree, n: nat)
    requires FsOk(v, t) && n in t.bytes
    ensures 0 < v.g.bsize && n < |v.inodes| && Readable(v.g, v.img, v.inodes[n]) && Walks(v.g, v.img, v.inodes[n])
    ensures Contents(v.g, v.img, v.inodes[n]) == t.bytes[n] && v.inodes[n].size == |t.bytes[n]|
  {
    hide FsOk, Mirrors, Sound, Contents, Readable, Walks, InodeOk;
    FsParts(v, t);
    FileBytes(v, t, n);
    MirrorFacts(v, t);
    SoundInode(v, t.kinds.Keys, n);
    ReadableShape(v.g, v.img, v.inodes[n]);
  }
}
