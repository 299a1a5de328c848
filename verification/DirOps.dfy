/** Directory operations on a volume: lookup, insertion, removal and rewriting of entries. */
module DirOps {
  import opened Arith
  import opened Geometry
  import opened Codec
  import opened VolumeState
  import opened Alloc
  import opened Pointers
  import opened Inodes
  import opened Reader
  import opened Write
  import opened Extend
  import opened Dir
  import opened Directory

  ghost function Data(v: Vol, n: nat): seq<byte>
    requires 0 < v.g.bsize && n < |v.inodes|
  {
    Contents(v.g, v.img, v.inodes[n])
  }

  /** The block side and the file side of the invariant together. */
  ghost predicate Sound(v: Vol, live: set<nat>) {
    BlocksOk(v) && FilesOk(v, live)
  }

  lemma SoundInode(v: Vol, live: set<nat>, n: nat)
    requires Sound(v, live) && n in live
    ensures ValidGeometry(v.g) && 0 < v.g.bsize && 0 < v.g.fsize && n < |v.inodes| && InodeOk(v, n)
    ensures |Data(v, n)| == v.inodes[n].size && Readable(v.g, v.img, v.inodes[n])
  {
    hide CgOk, GroupsOk;
    FilesLive(v, live, n);
    OkReadable(v, n);
    DataReady(v, n);
  }

  /** Inode `n` is a directory whose blocks are tiled by records. */
  ghost predicate IsDir(v: Vol, n: nat) {
    && 0 < v.g.bsize && n < |v.inodes| && v.inodes[n].kind == Directory
    && DirTiled(Data(v, n)) && Data(v, n) != []
  }

  ghost function Listing(v: Vol, n: nat): seq<Entry>
    requires IsDir(v, n)
  {
    Live(Data(v, n))
  }

  /** One inode was rewritten: its bytes are now `data`, its identity is unchanged. */
  ghost predicate Stored(v: Vol, w: Vol, live: set<nat>, n: nat, data: seq<byte>) {
    && Sound(w, live) && Rewritten(v, w, n)
    && 0 < w.g.bsize && n < |w.inodes| && n < |v.inodes| && SameIdentity(v.inodes[n], w.inodes[n]) && Data(w, n) == data
  }

  // --- 512-byte blocks inside file system blocks -----------------------------

  lemma {:induction false} ScaledDivision(i: nat, m: nat)
    requires 0 < m
    ensures Quot(SECTOR * i, SECTOR * m) == Quot(i, m) && Rem(SECTOR * i, SECTOR * m) == SECTOR * Rem(i, m)
    decreases i
  {
    if i >= m {
      ScaledDivision(i - m, m);
      assert SECTOR * i - SECTOR * m == SECTOR * (i - m);
    }
  }

  /** A directory block never straddles two file system blocks. */
  lemma BlockFits(g: Geometry, i: nat)
    requires ValidGeometry(g) && 0 < g.bsize
    ensures Rem(DIRBLK * i, g.bsize) + DIRBLK <= g.bsize
  {
    var m := Mul(g.frag, g.nspf);
    MulIsProduct(g.frag, g.fsize);
    MulIsProduct(g.frag, g.nspf);
    assert g.frag * (SECTOR * g.nspf) == SECTOR * (g.frag * g.nspf);
    ScaledDivision(i, m);
    Recompose(i, m);
  }

  /** Directory block `i` lives at one place inside one of the inode's blocks. */
  lemma BlockPlace(v: Vol, live: set<nat>, n: nat, i: nat)
    requires Sound(v, live) && n in live && DIRBLK * i + DIRBLK <= v.inodes[n].size
    ensures 0 < v.g.bsize && n < |v.inodes|
    ensures var bs, q, lo := DataBlocks(v.g, v.img, v.inodes[n]), Quot(DIRBLK * i, v.g.bsize), Rem(DIRBLK * i, v.g.bsize);
      && lo + DIRBLK <= v.g.bsize && q < |bs| && Mul(q, v.g.bsize) + lo == DIRBLK * i
      && NoDup(bs) && GoodBlocks(v.g, bs) && Inside(v.g, v.img, bs) && bs[q] in v.own && v.own[bs[q]].ino == n
  {
    hide Region, Sizes, DataBlocks, PtrBlocks, Joined, BlocksOk, FilesOk, InodeOk, OwnOk, GroupsOk, GoodBlocks, Inside, ValidGeometry, Mul, Rem, Quot, Contents, NoDup;
    FilesLive(v, live, n);
    BlocksShape(v);
    DataReady(v, n);
    BlockFits(v.g, i);
    var bs, q := DataBlocks(v.g, v.img, v.inodes[n]), Quot(DIRBLK * i, v.g.bsize);
    Recompose(DIRBLK * i, v.g.bsize);
    if |bs| <= q { MulAdd(|bs|, q - |bs|, v.g.bsize); }
    GoodInside(v.g, v.img, bs);
  }

  /** Writes directory block `i` in place. */
  method WriteDirBlock(vol: Volume, n: nat, i: nat, blk: seq<byte>, ghost live: set<nat>)
    requires Sound(vol.View(), live) && n in live && |blk| == DIRBLK && DIRBLK * i + DIRBLK <= vol.inodes[n].size
    modifies vol, vol.image
    ensures 0 < vol.g.bsize && |Data(old(vol.View()), n)| == old(vol.inodes[n].size)
    ensures Stored(old(vol.View()), vol.View(), live, n, WithBlock(Data(old(vol.View()), n), i, blk)) && vol.inodes == old(vol.inodes)
  {
    hide BlocksOk, FilesOk, Rewritten, InodeOk, Footprint, Contents, DataBlocks, PtrBlocks, Joined, Region, Splice, ValidGeometry, GoodBlocks, OwnOk, GroupsOk, Mul, Rem, Quot, Readable, Walks, NoDup;
    ghost var v := vol.View();
    SoundInode(v, live, n);
    ReadableShape(v.g, v.img, v.inodes[n]);
    BlockPlace(v, live, n, i);
    DataReady(v, n);
    BlocksShape(v);
    var bs := InodeDataBlocks(vol, vol.inodes[n]);
    var q, lo := Quot(DIRBLK * i, vol.g.bsize), Rem(DIRBLK * i, vol.g.bsize);
    PlaceGood(vol.g, bs, q);
    vol.CopyIn(bs[q], lo, blk);
    ghost var w := vol.View();
    BlockWritten(v, w, live, n, i, blk, bs, q, lo);
  }

  lemma PlaceGood(g: Geometry, bs: seq<nat>, q: nat)
    requires ValidGeometry(g) && GoodBlocks(g, bs) && q < |bs|
    ensures GoodBlock(g, bs[q])
  {
  }

  lemma BlockWritten(v: Vol, w: Vol, live: set<nat>, n: nat, i: nat, blk: seq<byte>, bs: seq<nat>, q: nat, lo: nat)
    requires Sound(v, live) && n in live && |blk| == DIRBLK && DIRBLK * i + DIRBLK <= v.inodes[n].size == |Data(v, n)|
    requires bs == DataBlocks(v.g, v.img, v.inodes[n]) && q < |bs| && lo + DIRBLK <= v.g.bsize && Mul(q, v.g.bsize) + lo == DIRBLK * i
    requires NoDup(bs) && Inside(v.g, v.img, bs) && bs[q] in v.own && v.own[bs[q]].ino == n && GoodBlocks(v.g, bs)
    requires w == v.(img := w.img) && SameExcept(v.g, v.img, w.img, {bs[q]})
    requires |Region(v.g, v.img, bs[q])| == v.g.bsize && Region(v.g, w.img, bs[q]) == Splice(Region(v.g, v.img, bs[q]), lo, blk)
    ensures Stored(v, w, live, n, WithBlock(Data(v, n), i, blk))
  {
    hide BlocksOk, FilesOk, Rewritten, InodeOk, Footprint, DataBlocks, PtrBlocks, Joined, Region, Splice, ValidGeometry, GoodBlock, OwnOk, GroupsOk, Mul;
    FilesLive(v, live, n);
    BlocksShape(v);
    JoinedCopy(v.g, v.img, w.img, bs, q, lo, blk);
    ImageIrrelevant(v, w);
    assert Elems([bs[q]]) == {bs[q]};
    RewrittenByCopy(v, w, n, [bs[q]]);
    assert SameExcept(v.g, v.img, w.img, Elems(bs));
    assert v.inodes[n := v.inodes[n].(size := v.inodes[n].size)] == v.inodes;
    DataWritten(v, w, n, v.inodes[n].size, DIRBLK * i, blk);
    OwnersReach(v, w, live, n);
    RewrittenFiles(v, w, live, n);
    HeadSplice(Joined(v.g, v.img, bs), v.inodes[n].size, DIRBLK * i, blk);
  }

  lemma HeadSplice(all: seq<byte>, size: nat, at: nat, d: seq<byte>)
    requires at + |d| <= size <= |all|
    ensures Head(Splice(all, at, d), size) == Splice(Head(all, size), at, d)
  {
    hide Splice;
  }

  // --- operations ------------------------------------------------------------

  /** Directory `n` was rewritten and now lists `es`. */
  ghost predicate Relisted(v: Vol, w: Vol, live: set<nat>, n: nat, es: seq<Entry>) {
    && IsDir(w, n) && Listing(w, n) == es
    && Sound(w, live) && Rewritten(v, w, n) && n < |v.inodes| && SameIdentity(v.inodes[n], w.inodes[n])
  }

  lemma StoredListing(v: Vol, w: Vol, live: set<nat>, n: nat, data: seq<byte>)
    requires IsDir(v, n) && Stored(v, w, live, n, data) && DirTiled(data) && data != []
    ensures Relisted(v, w, live, n, Live(data))
  {
    hide Sound, Rewritten, DirTiled, Live;
  }

  /** Facts about a directory's blocks that every scan uses. */
  lemma DirShape(v: Vol, live: set<nat>, n: nat)
    requires Sound(v, live) && n in live && IsDir(v, n)
    ensures |Data(v, n)| == v.inodes[n].size && v.inodes[n].size == DIRBLK * BlockCount(Data(v, n))
    ensures Readable(v.g, v.img, v.inodes[n]) && Walks(v.g, v.img, v.inodes[n]) && 0 < BlockCount(Data(v, n))
  {
    hide Sound, Readable, Walks, Contents, Tiles;
    SoundInode(v, live, n);
    ReadableShape(v.g, v.img, v.inodes[n]);
  }

  lemma TiledBlock(dir: seq<byte>, i: nat)
    requires DirTiled(dir) && i < BlockCount(dir)
    ensures Tiles(BlockAt(dir, i), 0, DIRBLK) && LiveTo(dir, i + 1) == LiveTo(dir, i) + Ents(BlockAt(dir, i), 0, DIRBLK)
    ensures LiveTo(dir, i + 1) <= Live(dir)
  {
    hide Tiles, Ents;
    LiveMonotone(dir, i + 1, BlockCount(dir));
  }

  lemma {:induction false} LiveMonotone(dir: seq<byte>, m: nat, n: nat)
    requires DirTiled(dir) && m <= n <= BlockCount(dir)
    ensures LiveTo(dir, m) <= LiveTo(dir, n)
    decreases n
  {
    hide Tiles, Ents, DirTiled;
    if m < n { LiveMonotone(dir, m, n - 1); }
  }

  lemma LiveNone(dir: seq<byte>)
    requires DirTiled(dir)
    ensures LiveTo(dir, 0) == []
  {
  }

  lemma BlockInside(dir: seq<byte>, i: nat)
    requires i < BlockCount(dir)
    ensures DIRBLK * i + DIRBLK <= |dir|
  {
  }

  /** `delete_directory_entry`. */
  method DeleteDirectoryEntry(vol: Volume, n: nat, name: Name, ghost live: set<nat>) returns (r: Result<()>, ghost k: nat)
    requires Sound(vol.View(), live) && n in live && IsDir(vol.View(), n) && Ascii(name)
    modifies vol, vol.image
    ensures r.Err? <==> Absent(Listing(old(vol.View()), n), name)
    ensures r.Err? ==> vol.View() == old(vol.View())
    ensures r.Ok? ==> FirstAt(Listing(old(vol.View()), n), k, name) && vol.inodes == old(vol.inodes)
    ensures r.Ok? ==> Relisted(old(vol.View()), vol.View(), live, n, RemoveAt(Listing(old(vol.View()), n), k))
  {
    hide Sound, Data, DirTiled, LiveTo, Tiles, Ents, Readable, Walks, DataBlocks, BlockAt, BlockCount, Stored, Relisted, WithBlock, MergedAway;
    ghost var v := vol.View();
    DirShape(v, live, n);
    var dir := ReadInodeBytes(vol, vol.inodes[n]);
    DataIs(v, n);
    LiveNone(dir);
    var i := 0;
    while DIRBLK * i < vol.inodes[n].size
      invariant vol.View() == v && i <= BlockCount(dir) && Absent(LiveTo(dir, i), name)
    {
      TiledBlock(dir, i);
      BlockInside(dir, i);
      var blk := BlockAt(dir, i);
      var updated, j := RemoveEntry(blk, name);
      if updated.Some? {
        WriteDirBlock(vol, n, i, updated.value, live);
        Replaced(dir, i, updated.value);
        RemoveInside(LiveTo(dir, i), Ents(blk, 0, DIRBLK), Live(dir), j);
        FirstInside(LiveTo(dir, i), Ents(blk, 0, DIRBLK), Live(dir), j, name);
        NonEmptyWith(dir, i, updated.value);
        StoredListing(v, vol.View(), live, n, WithBlock(dir, i, updated.value));
        return Ok(()), |LiveTo(dir, i)| + j;
      }
      i := i + 1;
    }
    return Err, 0;
  }

  lemma DataIs(v: Vol, n: nat)
    requires IsDir(v, n)
    ensures Data(v, n) == Contents(v.g, v.img, v.inodes[n]) && Listing(v, n) == Live(Data(v, n)) && DirTiled(Data(v, n))
  {
  }

  lemma NonEmptyWith(dir: seq<byte>, i: nat, blk: seq<byte>)
    requires |blk| == DIRBLK && i < BlockCount(dir)
    ensures DIRBLK * i + DIRBLK <= |dir| && WithBlock(dir, i, blk) != []
  {
    hide Splice;
  }

  /** `update_directory_dotdot`: points ".." at a new parent. */
  method UpdateDotDot(vol: Volume, n: nat, parent: nat, ghost live: set<nat>) returns (r: Result<()>, ghost k: nat)
    requires Sound(vol.View(), live) && n in live && IsDir(vol.View(), n) && 0 < parent < U32
    modifies vol, vol.image
    ensures r.Err? <==> Absent(Listing(old(vol.View()), n), DOTDOT)
    ensures r.Err? ==> vol.View() == old(vol.View())
    ensures r.Ok? ==> FirstAt(Listing(old(vol.View()), n), k, DOTDOT) && vol.inodes == old(vol.inodes)
    ensures r.Ok? ==> Relisted(old(vol.View()), vol.View(), live, n, Listing(old(vol.View()), n)[k := Entry(DOTDOT, parent)])
  {
    hide Sound, Data, DirTiled, LiveTo, Tiles, Ents, Readable, Walks, DataBlocks, BlockAt, BlockCount, Stored, Relisted, WithBlock;
    ghost var v := vol.View();
    DirShape(v, live, n);
    var dir := ReadInodeBytes(vol, vol.inodes[n]);
    DataIs(v, n);
    LiveNone(dir);
    var i := 0;
    while DIRBLK * i < vol.inodes[n].size
      invariant vol.View() == v && i <= BlockCount(dir) && Absent(LiveTo(dir, i), DOTDOT)
    {
      TiledBlock(dir, i);
      BlockInside(dir, i);
      var blk := BlockAt(dir, i);
      var updated, j := RewriteEntryInode(blk, DOTDOT, parent);
      if updated.Some? {
        WriteDirBlock(vol, n, i, updated.value, live);
        Replaced(dir, i, updated.value);
        UpdateInside(LiveTo(dir, i), Ents(blk, 0, DIRBLK), Live(dir), j, Entry(DOTDOT, parent));
        FirstInside(LiveTo(dir, i), Ents(blk, 0, DIRBLK), Live(dir), j, DOTDOT);
        NonEmptyWith(dir, i, updated.value);
        StoredListing(v, vol.View(), live, n, WithBlock(dir, i, updated.value));
        return Ok(()), |LiveTo(dir, i)| + j;
      }
      i := i + 1;
    }
    return Err, 0;
  }

  /** A single block, taken as a directory of its own. */
  lemma OneBlockDir(blk: seq<byte>)
    requires |blk| == DIRBLK
    ensures DirTiled(blk) <==> Tiles(blk, 0, DIRBLK)
    ensures DirTiled(blk) ==> Live(blk) == Ents(blk, 0, DIRBLK)
  {
    hide Tiles, Ents;
    assert BlockAt(blk, 0) == blk;
    if DirTiled(blk) { assert LiveTo(blk, 0) == []; }
  }

  /** The fast path: tries just the last block. Returns whether the entry went in. */
  method AddInLastBlock(vol: Volume, n: nat, name: Name, child: nat, ghost live: set<nat>) returns (done: bool, ghost k: nat)
    requires Sound(vol.View(), live) && n in live && IsDir(vol.View(), n)
    requires 0 < |name| <= MAXNAME && 0 < child < U32
    modifies vol, vol.image
    ensures !done ==> vol.View() == old(vol.View())
    ensures done ==> k <= |Listing(old(vol.View()), n)| && vol.inodes == old(vol.inodes)
    ensures done ==> !CrowdedDir(Data(old(vol.View()), n), |name|)
    ensures done ==> Relisted(old(vol.View()), vol.View(), live, n, InsertAt(Listing(old(vol.View()), n), k, Entry(name, child)))
  {
    hide Sound, Data, DirTiled, LiveTo, Live, Tiles, Ents, Readable, Walks, DataBlocks, BlockAt, Stored, Relisted, WithBlock, CrowdedDir, IntoBlock;
    ghost var v := vol.View();
    ghost var dir := Data(v, n);
    DirShape(v, live, n);
    DataIs(v, n);
    var last := vol.inodes[n].size / DIRBLK - 1;
    TiledBlock(dir, last);
    BlockInside(dir, last);
    LastIsLive(dir);
    var blk := ReadInodeRange(vol, vol.inodes[n], DIRBLK * last, DIRBLK);
    RangeIsBlock(dir, last);
    OneBlockDir(blk);
    var updated, j := InsertEntry(blk, child, name);
    if |updated| != DIRBLK {
      return false, 0;
    }
    OneBlockDir(updated);
    OneRoomy(dir, last, blk, |name|);
    WriteDirBlock(vol, n, last, updated, live);
    Replaced(dir, last, updated);
    InsertInside(LiveTo(dir, last), Ents(blk, 0, DIRBLK), Live(dir), j, Entry(name, child));
    NonEmptyWith(dir, last, updated);
    StoredListing(v, vol.View(), live, n, WithBlock(dir, last, updated));
    return true, |LiveTo(dir, last)| + j;
  }

  lemma OneRoomy(dir: seq<byte>, i: nat, blk: seq<byte>, n: nat)
    requires DirTiled(dir) && i < BlockCount(dir) && blk == BlockAt(dir, i) && DirTiled(blk) && !CrowdedDir(blk, n)
    ensures !CrowdedDir(dir, n)
  {
    hide Tiles, Crowded;
    assert BlockAt(blk, 0) == blk;
  }

  lemma LastIsLive(dir: seq<byte>)
    requires DirTiled(dir)
    ensures Live(dir) == LiveTo(dir, BlockCount(dir))
  {
  }

  lemma RangeIsBlock(dir: seq<byte>, i: nat)
    requires DIRBLK * i + DIRBLK <= |dir|
    ensures Slice(dir, DIRBLK * i, DIRBLK * i + DIRBLK) == BlockAt(dir, i)
  {
  }

  /** The in-place route: writes back the blocks that changed. */
  method WriteChanged(vol: Volume, n: nat, dir: seq<byte>, updated: seq<byte>, ghost live: set<nat>)
    requires Sound(vol.View(), live) && n in live && vol.inodes[n].size == |dir| == |updated| && |dir| % DIRBLK == 0
    requires 0 < vol.g.bsize && n < |vol.inodes| && Data(vol.View(), n) == dir
    modifies vol, vol.image
    ensures vol.inodes == old(vol.inodes) && Stored(old(vol.View()), vol.View(), live, n, updated)
  {
    hide Sound, Data, Rewritten, BlockAt, WithBlock, Mixed, Stored;
    ghost var v := vol.View();
    StoredAlready(v, live, n);
    var i := 0;
    MixedEnds(dir, updated);
    while DIRBLK * i < |dir|
      invariant DIRBLK * i <= |dir| && vol.inodes == v.inodes
      invariant Stored(v, vol.View(), live, n, Mixed(dir, updated, i))
    {
      ghost var u := vol.View();
      StoredFacts(v, u, live, n, Mixed(dir, updated, i));
      var blk := BlockAt(updated, i);
      MixedStep(dir, updated, i);
      if BlockAt(dir, i) != blk {
        WriteDirBlock(vol, n, i, blk, live);
        StoredAgain(v, u, vol.View(), live, n, Mixed(dir, updated, i), Mixed(dir, updated, i + 1));
      }
      i := i + 1;
    }
  }

  lemma StoredAlready(v: Vol, live: set<nat>, n: nat)
    requires Sound(v, live) && n in live
    ensures 0 < v.g.bsize && n < |v.inodes| && Stored(v, v, live, n, Data(v, n))
  {
    hide Sound, Data, Rewritten;
    SoundInode(v, live, n);
    RewrittenByRecord(v, n, v.inodes[n]);
    assert v.(inodes := v.inodes[n := v.inodes[n]]) == v;
  }

  lemma StoredFacts(v: Vol, w: Vol, live: set<nat>, n: nat, data: seq<byte>)
    requires Stored(v, w, live, n, data)
    ensures Sound(w, live) && Rewritten(v, w, n) && 0 < w.g.bsize && n < |w.inodes| && Data(w, n) == data
  {
  }

  lemma StoredAgain(u: Vol, v: Vol, w: Vol, live: set<nat>, n: nat, a: seq<byte>, b: seq<byte>)
    requires Stored(u, v, live, n, a) && Stored(v, w, live, n, b)
    ensures Stored(u, w, live, n, b)
  {
    hide Sound, Data, Rewritten;
    RewrittenTransitive(u, v, w, n);
  }

  /** The first `i` blocks of `updated`, the rest of `dir`. */
  ghost function Mixed(dir: seq<byte>, updated: seq<byte>, i: nat): seq<byte>
    requires |dir| == |updated| && DIRBLK * i <= |dir|
  {
    updated[..DIRBLK * i] + dir[DIRBLK * i..]
  }

  lemma MixedEnds(dir: seq<byte>, updated: seq<byte>)
    requires |dir| == |updated| && |dir| % DIRBLK == 0
    ensures Mixed(dir, updated, 0) == dir && Mixed(dir, updated, |dir| / DIRBLK) == updated
  {
  }

  lemma MixedStep(dir: seq<byte>, updated: seq<byte>, i: nat)
    requires |dir| == |updated| && DIRBLK * i + DIRBLK <= |dir|
    ensures Mixed(dir, updated, i + 1) == WithBlock(Mixed(dir, updated, i), i, BlockAt(updated, i))
    ensures BlockAt(dir, i) == BlockAt(updated, i) ==> Mixed(dir, updated, i + 1) == Mixed(dir, updated, i)
  {
    var a, b := updated[..DIRBLK * i], dir[DIRBLK * i..];
    assert updated[..DIRBLK * (i + 1)] == a + BlockAt(updated, i);
    assert b == BlockAt(dir, i) + dir[DIRBLK * (i + 1)..];
    SpliceRight(a, b, 0, BlockAt(updated, i));
    assert Splice(b, 0, BlockAt(updated, i)) == BlockAt(updated, i) + dir[DIRBLK * (i + 1)..];
  }

  /** The directory grew by one 512-byte block if none of its blocks had room for the name, else not at all. */
  ghost predicate GrownToFit(v: Vol, w: Vol, n: nat, name: Name) {
    && IsDir(v, n) && n < |w.inodes|
    && w.inodes[n].size == v.inodes[n].size + if CrowdedDir(Data(v, n), |name|) then DIRBLK else 0
  }

  /** `add_directory_entry`: last block, else any block with room, else one more block. */
  method AddDirectoryEntry(vol: Volume, n: nat, name: Name, child: nat, ghost live: set<nat>) returns (r: Result<()>, ghost k: nat)
    requires Sound(vol.View(), live) && n in live && IsDir(vol.View(), n)
    requires 0 < |name| <= MAXNAME && 0 < child < U32
    modifies vol, vol.image
    ensures r.Ok? ==> k <= |Listing(old(vol.View()), n)|
    ensures r.Ok? ==> Relisted(old(vol.View()), vol.View(), live, n, InsertAt(Listing(old(vol.View()), n), k, Entry(name, child)))
    ensures r.Ok? ==> GrownToFit(old(vol.View()), vol.View(), n, name)
    ensures r.Err? ==> NoSpace(vol.g, vol.own)
  {
    hide NoSpace, Sound, Data, DirTiled, Live, Readable, Walks, Relisted, InsertAt, BlockCount, CrowdedDir;
    ghost var v := vol.View();
    DirShape(v, live, n);
    DataIs(v, n);
    if vol.inodes[n].size > DIRBLK {
      var done, j := AddInLastBlock(vol, n, name, child, live);
      if done {
        return Ok(()), j;
      }
    }
    r, k := AddAnywhere(vol, n, name, child, live);
  }

  /** The general path: any block with room, else one more block. */
  method AddAnywhere(vol: Volume, n: nat, name: Name, child: nat, ghost live: set<nat>) returns (r: Result<()>, ghost k: nat)
    requires Sound(vol.View(), live) && n in live && IsDir(vol.View(), n)
    requires 0 < |name| <= MAXNAME && 0 < child < U32
    modifies vol, vol.image
    ensures r.Ok? ==> k <= |Listing(old(vol.View()), n)|
    ensures r.Ok? ==> Relisted(old(vol.View()), vol.View(), live, n, InsertAt(Listing(old(vol.View()), n), k, Entry(name, child)))
    ensures r.Ok? ==> GrownToFit(old(vol.View()), vol.View(), n, name)
    ensures r.Err? ==> NoSpace(vol.g, vol.own)
  {
    hide NoSpace, Sound, Stored, Rewritten, Data, DirTiled, LiveTo, Live, Readable, Walks, Relisted, InsertAt, BlockCount, BlockAt, CrowdedDir, IntoBlock;
    ghost var v := vol.View();
    DirShape(v, live, n);
    DataIs(v, n);
    var dir := ReadInodeBytes(vol, vol.inodes[n]);
    var updated, j := InsertEntry(dir, child, name);
    if |updated| == vol.inodes[n].size {
      WriteChanged(vol, n, dir, updated, live);
    } else {
      var grown := GrowDirectory(vol, n, dir, updated, live);
      if grown.Err? { return Err, 0; }
    }
    StoredListing(v, vol.View(), live, n, updated);
    StoredSize(v, vol.View(), live, n, updated);
    return Ok(()), j;
  }

  lemma StoredSize(v: Vol, w: Vol, live: set<nat>, n: nat, data: seq<byte>)
    requires Stored(v, w, live, n, data) && n in live
    ensures n < |w.inodes| && w.inodes[n].size == |data|
  {
    hide Sound, Rewritten, Data;
    SoundInode(w, live, n);
  }

  /** The growth route: appends only the new last block. */
  method GrowDirectory(vol: Volume, n: nat, dir: seq<byte>, updated: seq<byte>, ghost live: set<nat>) returns (r: Result<()>)
    requires Sound(vol.View(), live) && n in live && vol.inodes[n].size == |dir| && dir <= updated && |dir| < |updated|
    requires 0 < vol.g.bsize && n < |vol.inodes| && Data(vol.View(), n) == dir
    modifies vol, vol.image
    ensures r.Ok? ==> Stored(old(vol.View()), vol.View(), live, n, updated)
    ensures r.Err? ==> NoSpace(vol.g, vol.own)
  {
    hide NoSpace, BlocksOk, FilesOk, Rewritten, Contents, Overwrite, Stored;
    ghost var v := vol.View();
    r := ApplyInodeWrite(vol, n, |dir|, updated[|dir|..], live);
    if r.Ok? {
      FilesLive(vol.View(), live, n);
      GrownDir(v, vol.View(), live, n, dir, updated);
    }
  }

  lemma GrownDir(v: Vol, w: Vol, live: set<nat>, n: nat, dir: seq<byte>, updated: seq<byte>)
    requires Sound(w, live) && Rewritten(v, w, n) && n < |v.inodes| && n in live && dir <= updated && |dir| < |updated|
    requires 0 < w.g.bsize && n < |w.inodes| && SameIdentity(v.inodes[n], w.inodes[n])
    requires Contents(w.g, w.img, w.inodes[n]) == Overwrite(dir, |dir|, updated[|dir|..])
    ensures Stored(v, w, live, n, updated)
  {
    hide Sound, Rewritten, Contents;
    assert dir + updated[|dir|..] == updated;
  }
}
