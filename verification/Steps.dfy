/** The steps namespace operations are made of, each followed on the abstract tree. */
module Steps {
  import opened Arith
  import opened Geometry
  import opened VolumeState
  import opened Alloc
  import opened Pointers
  import opened Inodes
  import opened Reader
  import opened Write
  import opened Extend
  import opened Dir
  import opened Directory
  import opened DirOps
  import opened InodeAlloc
  import opened Tree
  import opened ListingOps
  import opened Mirror

  /** `lookup_directory_entry` finds exactly what the tree resolves. */
  method Find(vol: Volume, d: nat, name: Name, ghost t: Tree) returns (r: Option<nat>)
    requires Mirrors(vol.View(), t) && TreeOk(t) && d in t.parents && name != []
    ensures r == Resolve(t, d, name)
  {
    hide Mirrors, TreeOk, Sound, IsDir, Listing, Lists, FirstAt, Absent, Resolve, Readable, Walks, Contents, Entries, ValidGeometry;
    ghost var v := vol.View();
    DirAt(v, t, d);
    ListingReads(v, t.kinds.Keys, d);
    DirInTable(v, d);
    ReadableShape(v.g, v.img, v.inodes[d]);
    ghost var k;
    r, k := LookupRecord(vol, vol.inodes[d], name);
    UnlistedName(Listing(v, d), t, d, name);
    if !Absent(Listing(v, d), name) {
      ListedName(Listing(v, d), t, d, k, name);
      TargetExists(v, t, d, name);
    }
  }

  lemma TargetExists(v: Vol, t: Tree, d: nat, name: Name)
    requires Mirrors(v, t) && TreeOk(t) && d in t.parents && Resolve(t, d, name).Some?
    ensures Resolve(t, d, name).value < |v.inodes|
  {
    hide Mirrors, TreeOk;
    ResolvesInside(t, d, name);
    ExistsInTable(v, t, Resolve(t, d, name).value);
  }

  lemma ResolvesInside(t: Tree, d: nat, name: Name)
    requires TreeOk(t) && d in t.parents && Resolve(t, d, name).Some?
    ensures Resolve(t, d, name).value in t.kinds
  {
    hide NamesOk, BytesOk;
    assert t.parents[d] in t.parents.Values;
  }

  lemma ExistsInTable(v: Vol, t: Tree, n: nat)
    requires Mirrors(v, t) && n in t.kinds
    ensures n < |v.inodes|
  {
    hide Mirrors;
    MirrorFacts(v, t);
  }

  lemma DirInTable(v: Vol, d: nat)
    requires IsDir(v, d)
    ensures d < |v.inodes|
  {
  }

  lemma MirrorFacts(v: Vol, t: Tree)
    requires Mirrors(v, t)
    ensures Sound(v, t.kinds.Keys) && Shape(v) && 0 < v.g.bsize
    ensures forall n | n in t.kinds :: ROOT <= n < |v.inodes| && t.kinds[n] != Unset && v.inodes[n].kind == t.kinds[n] && v.inodes[n].nlink < MAXLINKS
    ensures forall n: nat | n < |v.inodes| && n !in t.kinds :: v.inodes[n].kind == Unset
    ensures forall d | d in t.parents :: d in t.kinds && t.kinds[d] == Directory
    ensures |v.inodes| <= U32
  {
    hide BlocksOk, FilesOk, CountsOk, Data, Lists, Listing, DirTiled, Used;
    SoundShape(v, t.kinds.Keys);
    InodeNumbersFit(v);
  }

  lemma InodeNumbersFit(v: Vol)
    requires Shape(v)
    ensures |v.inodes| <= U32
  {
  }

  lemma RelistedFacts(v: Vol, w: Vol, live: set<nat>, n: nat, es: seq<Entry>)
    requires Relisted(v, w, live, n, es)
    ensures IsDir(w, n) && Listing(w, n) == es && Sound(w, live) && Rewritten(v, w, n)
    ensures n < |v.inodes| && n < |w.inodes| && SameIdentity(v.inodes[n], w.inodes[n])
  {
    hide Sound, Rewritten, DirTiled, Data;
  }

  /** Adds the name (`d`, `name`) for inode `n`. */
  method Enter(vol: Volume, d: nat, name: Name, n: nat, ghost t: Tree) returns (r: Result<()>)
    requires Mirrors(vol.View(), t) && d in t.parents && PlainName(name) && (d, name) !in t.links && 0 < n < U32
    modifies vol, vol.image
    ensures r.Ok? ==> Mirrors(vol.View(), Link(t, d, name, n)) && SameTable(old(vol.View()), vol.View())
    ensures r.Ok? ==> |vol.inodes| == old(|vol.inodes|) && forall m | 0 <= m < |vol.inodes| && m != d :: vol.inodes[m] == old(vol.inodes[m])
    ensures r.Err? ==> NoSpace(vol.g, vol.own)
  {
    hide NoSpace, Mirrors, Sound, IsDir, Listing, Lists, Relisted, Rewritten, InsertAt, SameTable, SameUnder, TableOk;
    ghost var v := vol.View();
    DirAt(v, t, d);
    ghost var k;
    r, k := AddDirectoryEntry(vol, d, name, n, t.kinds.Keys);
    if r.Ok? {
      ghost var es := Listing(v, d);
      RelistedFacts(v, vol.View(), t.kinds.Keys, d, InsertAt(es, k, Entry(name, n)));
      ListsInsert(es, k, t, d, name, n);
      LinkOnlyAt(v, t, d, name, n);
      SideFacts(v, vol.View(), d);
      MirrorsRewritten(v, vol.View(), t, Link(t, d, name, n), d);
    }
  }

  lemma BytesApart(v: Vol, t: Tree)
    requires Mirrors(v, t)
    ensures forall m | m in t.bytes :: m in t.kinds && m !in t.parents
    ensures forall m | m in t.devices :: m in t.bytes
  {
    hide Sound, CountsOk, TableOk, DirsMatch, Data;
  }

  lemma LinkOnlyAt(v: Vol, t: Tree, d: nat, name: Name, n: nat)
    requires Mirrors(v, t)
    ensures OnlyAt(t, Link(t, d, name, n), d)
  {
    hide Mirrors;
    BytesApart(v, t);
  }

  lemma UnlinkOnlyAt(v: Vol, t: Tree, d: nat, name: Name)
    requires Mirrors(v, t)
    ensures OnlyAt(t, Unlink(t, d, name), d)
  {
    hide Mirrors;
    BytesApart(v, t);
  }

  lemma AdoptOnlyAt(v: Vol, t: Tree, d: nat, p: nat)
    requires Mirrors(v, t)
    ensures OnlyAt(t, Adopt(t, d, p), d)
  {
    hide Mirrors;
    BytesApart(v, t);
  }

  /** Removes the name (`d`, `name`). */
  method Strike(vol: Volume, d: nat, name: Name, ghost t: Tree) returns (r: Result<()>)
    requires Mirrors(vol.View(), t) && d in t.parents && PlainName(name)
    modifies vol, vol.image
    ensures r.Ok? <==> (d, name) in t.links
    ensures r.Ok? ==> Mirrors(vol.View(), Unlink(t, d, name)) && SameTable(old(vol.View()), vol.View())
    ensures r.Err? ==> vol.View() == old(vol.View())
  {
    hide Mirrors, Sound, IsDir, Listing, Lists, Relisted, Rewritten, RemoveAt, SameTable, SameUnder, Absent, TableOk;
    ghost var v := vol.View();
    DirAt(v, t, d);
    ghost var es := Listing(v, d);
    UnlistedName(es, t, d, name);
    ghost var k;
    r, k := DeleteDirectoryEntry(vol, d, name, t.kinds.Keys);
    if r.Ok? {
      RelistedFacts(v, vol.View(), t.kinds.Keys, d, RemoveAt(es, k));
      ListsRemove(es, k, t, d, name);
      UnlinkOnlyAt(v, t, d, name);
      MirrorsRewritten(v, vol.View(), t, Unlink(t, d, name), d);
    }
  }

  /** Points directory `d`'s ".." at `p`. */
  method Redirect(vol: Volume, d: nat, p: nat, ghost t: Tree) returns (r: Result<()>)
    requires Mirrors(vol.View(), t) && d in t.parents && 0 < p < U32
    modifies vol, vol.image
    ensures r.Ok? && Mirrors(vol.View(), Adopt(t, d, p)) && SameTable(old(vol.View()), vol.View())
  {
    hide Mirrors, Sound, IsDir, Listing, Lists, Relisted, Rewritten, SameTable, SameUnder, Absent, TableOk;
    ghost var v := vol.View();
    DirAt(v, t, d);
    ghost var es := Listing(v, d);
    UnlistedName(es, t, d, DOTDOT);
    ghost var k;
    r, k := UpdateDotDot(vol, d, p, t.kinds.Keys);
    RelistedFacts(v, vol.View(), t.kinds.Keys, d, es[k := Entry(DOTDOT, p)]);
    ListsUpdate(es, k, t, d, p);
    AdoptOnlyAt(v, t, d, p);
    MirrorsRewritten(v, vol.View(), t, Adopt(t, d, p), d);
  }

  /** Replaces the bytes of file `n`. */
  method StoreBytes(vol: Volume, n: nat, data: seq<byte>, ghost t: Tree) returns (r: Result<()>)
    requires Mirrors(vol.View(), t) && n in t.bytes
    modifies vol, vol.image
    ensures r.Ok? ==> Mirrors(vol.View(), Fill(t, n, data)) && SameTable(old(vol.View()), vol.View())
    ensures r.Ok? && data == [] ==> forall b | b in vol.own :: vol.own[b].ino != n
    ensures r.Err? ==> data != [] && NoSpace(vol.g, vol.own)
  {
    hide NoSpace, Mirrors, BlocksOk, FilesOk, IsDir, Listing, Lists, Rewritten, SameTable, SameUnder, Contents, SameIdentity;
    ghost var v := vol.View();
    MirrorFacts(v, t);
    BytesApart(v, t);
    r := SetInodeContents(vol, n, data, t.kinds.Keys);
    if r.Ok? {
      FilesLive(vol.View(), t.kinds.Keys, n);
      FillOnlyAt(v, t, n, data);
      MirrorsRewritten(v, vol.View(), t, Fill(t, n, data), n);
    }
  }

  lemma FillOnlyAt(v: Vol, t: Tree, n: nat, data: seq<byte>)
    requires Mirrors(v, t) && n in t.bytes
    ensures OnlyAt(t, Fill(t, n, data), n) && n !in t.parents && n in t.kinds
  {
    hide Mirrors;
    BytesApart(v, t);
  }

  /** `write_inode_nlink`. */
  method SetLinks(vol: Volume, n: nat, k: nat, ghost t: Tree)
    requires Mirrors(vol.View(), t) && n in t.kinds && k < MAXLINKS
    modifies vol
    ensures n < |old(vol.inodes)| && vol.inodes == old(vol.inodes)[n := old(vol.inodes[n]).(nlink := k)]
    ensures Mirrors(vol.View(), t)
  {
    hide Mirrors, FilesOk, BlocksOk;
    ghost var v := vol.View();
    MirrorFacts(v, t);
    vol.inodes := vol.inodes[n := vol.inodes[n].(nlink := k)];
    RelinkedMirrors(v, t, n, k);
  }

  ghost function Relink(v: Vol, n: nat, k: nat): Vol
    requires n < |v.inodes|
  {
    v.(inodes := v.inodes[n := v.inodes[n].(nlink := k)])
  }

  lemma RelinkedMirrors(v: Vol, t: Tree, n: nat, k: nat)
    requires Mirrors(v, t) && n in t.kinds && n < |v.inodes| && k < MAXLINKS
    ensures Mirrors(Relink(v, n, k), t)
  {
    hide Sound, Data, DirTiled, Lists, Used, CountsOk, ValidGeometry;
    var w := Relink(v, n, k);
    RelinkedSound(v, t.kinds.Keys, n, k);
    RelinkedCounts(v, w);
    assert Shape(w);
    forall m: nat | m < |v.inodes| ensures Data(w, m) == Data(v, m) && Used(w, m) == Used(v, m) {
      RelinkedData(v, n, k, m);
    }
  }

  lemma RelinkedWalk(g: Geometry, img: seq<byte>, c: Dinode, k: nat)
    requires 0 < g.bsize
    ensures var d := c.(nlink := k);
      DataBlocks(g, img, d) == DataBlocks(g, img, c) && PtrBlocks(g, img, d) == PtrBlocks(g, img, c) && Contents(g, img, d) == Contents(g, img, c)
  {
    hide Leaves, Inner, NonZero, Need, Joined;
  }

  lemma RelinkedData(v: Vol, n: nat, k: nat, m: nat)
    requires n < |v.inodes| && m < |v.inodes| && 0 < v.g.bsize && Shape(v) && Shape(Relink(v, n, k))
    ensures Data(Relink(v, n, k), m) == Data(v, m) && Used(Relink(v, n, k), m) == Used(v, m)
  {
    hide Contents, Shape;
    RelinkedWalk(v.g, v.img, v.inodes[n], k);
  }

  lemma RelinkedSound(v: Vol, live: set<nat>, n: nat, k: nat)
    requires Sound(v, live) && n in live && n < |v.inodes|
    ensures Sound(Relink(v, n, k), live)
  {
    hide BlocksOk, Footprint, InodeOk, Rewritten, Contents;
    var w := Relink(v, n, k);
    InodesIrrelevant(v, w);
    FilesLive(v, live, n);
    RewrittenByRecord(v, n, w.inodes[n]);
    RelinkedInode(v, n, k);
    OwnersReach(v, w, live, n);
    RewrittenFiles(v, w, live, n);
  }

  lemma RelinkedInode(v: Vol, n: nat, k: nat)
    requires 0 < v.g.bsize && 0 < v.g.fsize && n < |v.inodes| && InodeOk(v, n)
    ensures InodeOk(Relink(v, n, k), n) && Footprint(Relink(v, n, k), n) == Footprint(v, n)
  {
    hide DataBlocks, PtrBlocks, Contents, Claimed, SectorCount, AllocSizes;
    RelinkedWalk(v.g, v.img, v.inodes[n], k);
  }

  lemma RelinkedCounts(v: Vol, w: Vol)
    requires CountsOk(v) && w == v.(inodes := w.inodes) && |w.inodes| == |v.inodes|
    requires forall m | 0 <= m < |v.inodes| :: w.inodes[m].kind == v.inodes[m].kind
    ensures CountsOk(w)
  {
    hide DirCount, Clear, Total, ValidGeometry;
    forall i | 0 <= i < v.g.ncg ensures GroupCounts(w, i) {
      assert GroupCounts(v, i);
      GroupRange(v.g, i);
      DirsSame(v.cgs[i].iused, v.inodes, w.inodes, Mul(i, v.g.ipg), v.g.ipg);
    }
    CountsBits(v);
  }
}
