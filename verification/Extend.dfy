/** Writing a byte range of an inode, reallocating only the blocks whose allocation changes. */
module Extend {
  import opened Arith
  import opened Geometry
  import opened Codec
  import opened VolumeState
  import opened Alloc
  import opened Pointers
  import opened Inodes
  import opened Reader
  import opened Bounds
  import opened Write

  // --- write_data_range ------------------------------------------------------

  /** Changing one listed block changes its slice of the joined bytes. */
  lemma {:induction false} JoinedCopy(g: Geometry, img: seq<byte>, img': seq<byte>, bs: seq<nat>, i: nat, lo: nat, d: seq<byte>)
    requires |img'| == |img| && Inside(g, img, bs) && i < |bs| && NoDup(bs) && lo + |d| <= g.bsize
    requires |Region(g, img, bs[i])| == g.bsize && Region(g, img', bs[i]) == Splice(Region(g, img, bs[i]), lo, d)
    requires forall j | 0 <= j < |bs| && j != i :: Region(g, img', bs[j]) == Region(g, img, bs[j])
    ensures Mul(i, g.bsize) + g.bsize <= |Joined(g, img, bs)| == Mul(|bs|, g.bsize)
    ensures Joined(g, img', bs) == Splice(Joined(g, img, bs), Mul(i, g.bsize) + lo, d)
    decreases |bs|
  {
    hide Region, Splice, Mul;
    var n := |bs| - 1;
    JoinedAt(g, img, bs, i);
    JoinedLength(g, img, bs[..n]);
    var a, b := Joined(g, img, bs[..n]), Region(g, img, bs[n]);
    if i < n {
      JoinedCopy(g, img, img', bs[..n], i, lo, d);
      SpliceLeft(a, b, Mul(i, g.bsize) + lo, d);
    } else {
      SpliceRight(a, b, lo, d);
      forall b | b in bs[..n] ensures Region(g, img', b) == Region(g, img, b) {
        var j :| 0 <= j < n && bs[j] == b;
      }
      JoinedFrame(g, img, img', bs[..n]);
    }
  }

  lemma SpliceMore(s: seq<byte>, at: nat, d: seq<byte>, k: nat, m: nat)
    requires k <= m <= |d| && at + |d| <= |s|
    ensures Splice(Splice(s, at, d[..k]), at + k, d[k..m]) == Splice(s, at, d[..m])
    ensures Splice(s, at, d[..0]) == s && d[..|d|] == d
  {
    hide Splice;
  }

  /** Every block's allocation covers the part of `[0, end)` that falls in it. */
  ghost predicate Covers(g: Geometry, sizes: seq<nat>, end: nat) {
    forall i | 0 <= i < |sizes| && Mul(i, g.bsize) < end :: Min(g.bsize, end - Mul(i, g.bsize)) <= sizes[i]
  }

  ghost predicate GoodBlocks(g: Geometry, bs: seq<nat>)
    requires ValidGeometry(g)
  {
    forall i | 0 <= i < |bs| :: GoodBlock(g, bs[i])
  }

  lemma GoodInside(g: Geometry, img: seq<byte>, bs: seq<nat>)
    requires ValidGeometry(g) && |img| == Mul(g.dsize, g.fsize) && GoodBlocks(g, bs)
    ensures Inside(g, img, bs)
  {
    forall i | 0 <= i < |bs| ensures Mul(bs[i], g.fsize) + g.bsize <= |img| { RegionInside(g, bs[i]); }
  }

  /** `write_data_range`. */
  method WriteDataRange(vol: Volume, bs: seq<nat>, sizes: seq<nat>, offset: nat, data: seq<byte>)
    requires ValidGeometry(vol.g) && 0 < vol.g.bsize && vol.image.Length == Mul(vol.g.dsize, vol.g.fsize)
    requires NoDup(bs) && GoodBlocks(vol.g, bs) && |bs| == |sizes|
    requires offset + |data| <= Mul(|bs|, vol.g.bsize) && Covers(vol.g, sizes, offset + |data|)
    modifies vol.image
    ensures SameExcept(vol.g, old(vol.image[..]), vol.image[..], Elems(bs))
    ensures |Joined(vol.g, old(vol.image[..]), bs)| == Mul(|bs|, vol.g.bsize)
    ensures Joined(vol.g, vol.image[..], bs) == Splice(Joined(vol.g, old(vol.image[..]), bs), offset, data)
  {
    hide ValidGeometry, GoodBlock, Joined, Region, Quot, Mul, Splice, PutTo, GoodBlocks, NoDup;
    ghost var g, img := vol.g, vol.image[..];
    ghost var all := Joined(g, img, bs);
    GoodInside(g, img, bs);
    JoinedLength(g, img, bs);
    if data == [] {
      return;
    }
    var bsize, end := vol.g.bsize, offset + |data|;
    var first, last := Quot(offset, bsize), Min(|bs|, Quot(end + bsize - 1, bsize));
    RangeBounds(bsize, offset, end, |bs|);
    PutEnds(all, offset, data, Mul(first, bsize), Mul(last, bsize));
    for i := first to last
      invariant SameExcept(g, img, vol.image[..], Elems(bs))
      invariant Joined(g, vol.image[..], bs) == PutTo(all, offset, data, Mul(i, bsize))
    {
      var start := Mul(i, bsize);
      MulSucc(i, bsize);
      BlockStart(bsize, offset, end, i);
      var lo := Max(offset - start, 0);
      var hi := Min(Min(bsize, end - start), sizes[i]);
      MulLess(i, |bs|, bsize);
      if lo < hi {
        WriteStep(vol, bs, i, lo, data[start + lo - offset..start + hi - offset], img);
        PutStep(all, offset, data, start, bsize);
      }
    }
  }

  /** The part of the write that falls below `at`. */
  ghost function PutTo(all: seq<byte>, offset: nat, data: seq<byte>, at: nat): seq<byte>
    requires offset + |data| <= |all|
  {
    Splice(all, offset, data[..Max(0, Min(|data|, at - offset))])
  }

  lemma PutStep(all: seq<byte>, offset: nat, data: seq<byte>, start: nat, bsize: nat)
    requires offset + |data| <= |all| && start < offset + |data| && offset < start + bsize && start + bsize <= |all|
    ensures var lo, hi := Max(offset - start, 0), Min(bsize, offset + |data| - start);
      offset <= start + lo <= start + hi <= offset + |data|
      && Splice(PutTo(all, offset, data, start), start + lo, data[start + lo - offset..start + hi - offset]) == PutTo(all, offset, data, start + bsize)
  {
    hide Splice;
    var lo, hi := Max(offset - start, 0), Min(bsize, offset + |data| - start);
    SpliceMore(all, offset, data, start + lo - offset, start + hi - offset);
  }

  lemma PutEnds(all: seq<byte>, offset: nat, data: seq<byte>, first: nat, last: nat)
    requires offset + |data| <= |all|
    ensures first <= offset ==> PutTo(all, offset, data, first) == all
    ensures offset + |data| <= last ==> PutTo(all, offset, data, last) == Splice(all, offset, data)
  {
    hide Splice;
    SpliceMore(all, offset, data, 0, 0);
  }

  /** One block's share of the range. */
  method WriteStep(vol: Volume, bs: seq<nat>, i: nat, lo: nat, d: seq<byte>, ghost img: seq<byte>)
    requires ValidGeometry(vol.g) && vol.image.Length == Mul(vol.g.dsize, vol.g.fsize)
    requires NoDup(bs) && GoodBlocks(vol.g, bs) && i < |bs| && lo + |d| <= vol.g.bsize
    requires SameExcept(vol.g, img, vol.image[..], Elems(bs))
    modifies vol.image
    ensures SameExcept(vol.g, img, vol.image[..], Elems(bs))
    ensures Mul(i, vol.g.bsize) + vol.g.bsize <= |Joined(vol.g, old(vol.image[..]), bs)|
    ensures Joined(vol.g, vol.image[..], bs) == Splice(Joined(vol.g, old(vol.image[..]), bs), Mul(i, vol.g.bsize) + lo, d)
  {
    hide ValidGeometry, GoodBlock, Joined, Region, Mul;
    ghost var before := vol.image[..];
    GoodInside(vol.g, before, bs);
    vol.CopyIn(bs[i], lo, d);
    JoinedCopy(vol.g, before, vol.image[..], bs, i, lo, d);
    SameTransitive(vol.g, img, before, vol.image[..], Elems(bs), {bs[i]});
    assert Elems(bs) + {bs[i]} == Elems(bs);
  }

  // --- apply_inode_write -----------------------------------------------------

  /** `data` written over `c` at `at`, extending it as needed. */
  ghost function Overwrite(c: seq<byte>, at: nat, data: seq<byte>): seq<byte>
    requires at <= |c|
  {
    if at + |data| <= |c| then Splice(c, at, data) else c[..at] + data
  }

  lemma {:induction false} JoinedConcat(g: Geometry, img: seq<byte>, a: seq<nat>, b: seq<nat>)
    ensures Joined(g, img, a + b) == Joined(g, img, a) + Joined(g, img, b)
    decreases |b|
  {
    hide Region, Joined;
    JoinedNone(g, img);
    if b == [] {
      assert a + b == a;
    } else {
      var n := |b| - 1;
      JoinedConcat(g, img, a, b[..n]);
      assert a + b == a + b[..n] + [b[n]] && b == b[..n] + [b[n]];
      JoinedSnoc(g, img, a + b[..n], b[n]);
      JoinedSnoc(g, img, b[..n], b[n]);
    }
  }

  lemma JoinedNone(g: Geometry, img: seq<byte>)
    ensures Joined(g, img, []) == []
  {
  }

  lemma JoinedSnoc(g: Geometry, img: seq<byte>, a: seq<nat>, b: nat)
    ensures Joined(g, img, a + [b]) == Joined(g, img, a) + Region(g, img, b)
  {
    hide Region;
    assert (a + [b])[..|a|] == a;
  }

  /** A file's allocations cover its bytes. */
  lemma AllocCovers(g: Geometry, size: nat, end: nat)
    requires ValidGeometry(g) && 0 < g.bsize && end <= size
    ensures |AllocSizes(g, size)| == Need(g, size) && end <= Mul(|AllocSizes(g, size)|, g.bsize)
    ensures Covers(g, AllocSizes(g, size), end)
  {
    hide Sizes;
    var whole := Need(g, size) > NDADDR;
    SizesShape(g, size, whole);
    NeedCovers(g, size);
    forall i | 0 <= i < |AllocSizes(g, size)| && Mul(i, g.bsize) < end
      ensures Min(g.bsize, end - Mul(i, g.bsize)) <= AllocSizes(g, size)[i]
    {
      SizesCover(g, size, whole, i);
    }
  }

  /** `common_allocation_prefix`: length of the longest shared prefix. */
  method CommonPrefix(a: seq<nat>, b: seq<nat>) returns (k: nat)
    ensures k <= |a| && k <= |b| && a[..k] == b[..k]
    ensures k == |a| || k == |b| || a[k] != b[k]
  {
    k := 0;
    while k < |a| && k < |b| && a[k] == b[k]
      invariant k <= |a| && k <= |b| && a[..k] == b[..k]
    {
      k := k + 1;
    }
  }

  /** The bytes of the blocks after the write, cut to the new size, are the old bytes overwritten. */
  lemma OverwriteIs(all: seq<byte>, c: seq<byte>, at: nat, data: seq<byte>)
    requires at <= |c| <= |all| && all[..|c|] == c && at + |data| <= |all|
    ensures Head(Splice(all, at, data), Max(|c|, at + |data|)) == Overwrite(c, at, data)
  {
  }

  /** Rewriting bytes of the data blocks, and the size within the same allocations, keeps the inode right. */
  lemma DataWritten(v: Vol, w: Vol, ino: nat, size: nat, at: nat, data: seq<byte>)
    requires BlocksOk(v) && 0 < v.g.bsize && 0 < v.g.fsize && ino < |v.inodes| && InodeOk(v, ino)
    requires AllocSizes(v.g, size) == AllocSizes(v.g, v.inodes[ino].size)
    requires w == v.(img := w.img, inodes := v.inodes[ino := v.inodes[ino].(size := size)])
    requires SameExcept(v.g, v.img, w.img, Elems(DataBlocks(v.g, v.img, v.inodes[ino])))
    requires at + |data| <= |Joined(v.g, v.img, DataBlocks(v.g, v.img, v.inodes[ino]))|
    requires Joined(v.g, w.img, DataBlocks(v.g, v.img, v.inodes[ino])) == Splice(Joined(v.g, v.img, DataBlocks(v.g, v.img, v.inodes[ino])), at, data)
    ensures InodeOk(w, ino) && Footprint(w, ino) == Footprint(v, ino)
    ensures DataBlocks(w.g, w.img, w.inodes[ino]) == DataBlocks(v.g, v.img, v.inodes[ino])
    ensures Contents(w.g, w.img, w.inodes[ino]) == Head(Splice(Joined(v.g, v.img, DataBlocks(v.g, v.img, v.inodes[ino])), at, data), size)
  {
    hide BlocksOk, Region, Sizes, SectorCount, PtrBlocks, Joined, Splice, ValidGeometry, GoodBlock, Reachable, OwnOk, GroupsOk;
    BlocksShape(v);
    var d := v.inodes[ino];
    var bs, ps := DataBlocks(v.g, v.img, d), PtrBlocks(v.g, v.img, d);
    SizesShape(v.g, size, Need(v.g, size) > NDADDR);
    SizesShape(v.g, d.size, Need(v.g, d.size) > NDADDR);
    PtrsApart(v, w.img, ino);
    ContentsFrame(v.g, v.img, w.img, d);
    SameWalks(v.g, w.img, d, size);
  }

  lemma SameWalks(g: Geometry, img: seq<byte>, d: Dinode, size: nat)
    requires 0 < g.bsize && Need(g, size) == Need(g, d.size)
    ensures DataBlocks(g, img, d.(size := size)) == DataBlocks(g, img, d)
    ensures PtrBlocks(g, img, d.(size := size)) == PtrBlocks(g, img, d)
  {
  }

  /** Writes to the data blocks leave the pointer blocks alone. */
  lemma PtrsApart(v: Vol, img': seq<byte>, ino: nat)
    requires BlocksOk(v) && 0 < v.g.bsize && 0 < v.g.fsize && ino < |v.inodes| && InodeOk(v, ino)
    requires SameExcept(v.g, v.img, img', Elems(DataBlocks(v.g, v.img, v.inodes[ino])))
    ensures SameAt(v.g, v.img, img', PtrBlocks(v.g, v.img, v.inodes[ino]))
  {
    hide CgOk, Region, Sizes, SectorCount, PtrBlocks, DataBlocks, ValidGeometry, GoodBlock, NoDup;
    var bs, ps := DataBlocks(v.g, v.img, v.inodes[ino]), PtrBlocks(v.g, v.img, v.inodes[ino]);
    NotIn(bs, ps);
    forall b | b in ps ensures Region(v.g, img', b) == Region(v.g, v.img, b) {
      assert b !in Elems(bs);
    }
  }

  /** What writing needs to know about an inode that satisfies the invariant. */
  lemma DataReady(v: Vol, ino: nat)
    requires BlocksOk(v) && 0 < v.g.bsize && 0 < v.g.fsize && ino < |v.inodes| && InodeOk(v, ino)
    ensures var bs := DataBlocks(v.g, v.img, v.inodes[ino]);
      && NoDup(bs) && GoodBlocks(v.g, bs) && Holds(v.g, v.own, ino, bs, AllocSizes(v.g, v.inodes[ino].size))
      && |bs| == |AllocSizes(v.g, v.inodes[ino].size)| == Need(v.g, v.inodes[ino].size)
      && |Joined(v.g, v.img, bs)| == Mul(|bs|, v.g.bsize)
      && v.inodes[ino].size <= Mul(|bs|, v.g.bsize)
      && Contents(v.g, v.img, v.inodes[ino]) == Joined(v.g, v.img, bs)[..v.inodes[ino].size]
  {
    hide Region, Sizes, SectorCount, PtrBlocks, DataBlocks, Joined, CgOk;
    OkReadable(v, ino);
    ReadyToFree(v, ino);
    var bs := DataBlocks(v.g, v.img, v.inodes[ino]);
    JoinedLength(v.g, v.img, bs);
    NeedCovers(v.g, v.inodes[ino].size);
  }

  /** Blocks in front of the first changed allocation stay where they are. */
  ghost predicate FrontKept(current: seq<nat>, requested: seq<nat>, bs: seq<nat>, bs': seq<nat>) {
    forall k: nat | k <= |current| && k <= |requested| && current[..k] == requested[..k] ::
      k <= |bs| && k <= |bs'| && bs'[..k] == bs[..k]
  }

  lemma PrefixKept(current: seq<nat>, requested: seq<nat>, bs: seq<nat>, bs': seq<nat>, k: nat)
    requires k <= |current| == |bs| && k <= |requested| == |bs'| && bs[..k] <= bs'
    requires k == |current| || k == |requested| || current[k] != requested[k]
    ensures FrontKept(current, requested, bs, bs')
  {
    PrefixStops(current, requested, k);
    forall m: nat | m <= |current| && m <= |requested| && current[..m] == requested[..m] ensures bs'[..m] == bs[..m] {
      assert bs'[..m] == bs[..k][..m];
    }
  }

  lemma PrefixStops(a: seq<nat>, b: seq<nat>, k: nat)
    requires k <= |a| && k <= |b|
    ensures forall m: nat | k < m <= |a| && m <= |b| && a[..m] == b[..m] :: a[k] == b[k]
  {
    forall m: nat | k < m <= |a| && m <= |b| && a[..m] == b[..m] ensures a[k] == b[k] { assert a[..m][k] == b[..m][k]; }
  }

  /** The in-place branch: the new size needs the same allocations. */
  method WriteInPlace(vol: Volume, ino: nat, bs: seq<nat>, sizes: seq<nat>, offset: nat, data: seq<byte>, size: nat, ghost live: set<nat>)
    requires BlocksOk(vol.View()) && FilesOk(vol.View(), live) && ino in live
    requires bs == DataBlocks(vol.g, vol.image[..], vol.inodes[ino])
    requires sizes == AllocSizes(vol.g, vol.inodes[ino].size) == AllocSizes(vol.g, size)
    requires offset <= vol.inodes[ino].size && size == Max(vol.inodes[ino].size, offset + |data|)
    modifies vol, vol.image
    ensures BlocksOk(vol.View()) && FilesOk(vol.View(), live) && Rewritten(old(vol.View()), vol.View(), ino)
    ensures SameIdentity(old(vol.inodes[ino]), vol.inodes[ino]) && vol.inodes[ino].size == size
    ensures DataBlocks(vol.g, vol.image[..], vol.inodes[ino]) == bs
    ensures |Contents(vol.g, old(vol.image[..]), old(vol.inodes[ino]))| == old(vol.inodes[ino].size)
    ensures Contents(vol.g, vol.image[..], vol.inodes[ino]) == Overwrite(Contents(vol.g, old(vol.image[..]), old(vol.inodes[ino])), offset, data)
  {
    hide BlocksOk, FilesOk, Rewritten, InodeOk, Footprint, Contents, DataBlocks, Joined, Region, Sizes, ValidGeometry, Splice, GoodBlocks, Covers, OwnOk, GroupsOk;
    ghost var v := vol.View();
    BlocksShape(v);
    FilesLive(v, live, ino);
    DataReady(v, ino);
    AllocCovers(vol.g, size, offset + |data|);
    WriteDataRange(vol, bs, sizes, offset, data);
    ghost var x := vol.View();
    RewrittenByCopy(v, x, ino, bs);
    ImageIrrelevant(v, x);
    var d := vol.inodes[ino].(size := size);
    vol.inodes := vol.inodes[ino := d];
    RewrittenByRecord(x, ino, d);
    InodesIrrelevant(x, vol.View());
    RewrittenTransitive(v, x, vol.View(), ino);
    DataWritten(v, vol.View(), ino, size, offset, data);
    OverwriteIs(Joined(v.g, v.img, bs), Contents(v.g, v.img, v.inodes[ino]), offset, data);
    OwnersReach(v, vol.View(), live, ino);
    RewrittenFiles(v, vol.View(), live, ino);
  }

  lemma OwnersReach(v: Vol, w: Vol, live: set<nat>, ino: nat)
    requires FilesOk(v, live) && ino in live && w.own == v.own && w.g == v.g && |w.inodes| == |v.inodes|
    requires Footprint(w, ino) == Footprint(v, ino)
    ensures forall b | b in w.own && w.own[b].ino == ino :: b in Footprint(w, ino)
  {
  }

  /** Frees the pointer blocks and the data blocks past the first `k`. */
  method ReleaseSuffix(vol: Volume, ino: nat, data: seq<nat>, sizes: seq<nat>, k: nat, ghost live: set<nat>)
    requires BlocksOk(vol.View()) && FilesOk(vol.View(), live) && ino in live
    requires data == DataBlocks(vol.g, vol.image[..], vol.inodes[ino])
    requires sizes == AllocSizes(vol.g, vol.inodes[ino].size) && k <= |data| == |sizes|
    modifies vol
    ensures BlocksOk(vol.View()) && Rewritten(old(vol.View()), vol.View(), ino) && vol.inodes == old(vol.inodes)
    ensures Holds(vol.g, vol.own, ino, data[..k], sizes[..k]) && NoDup(data[..k])
    ensures forall b | b in vol.own && vol.own[b].ino == ino :: b in data[..k]
  {
    hide BlocksOk, Rewritten, Region, Readable, DataBlocks, PtrBlocks, Sizes, SectorCount, ValidGeometry;
    ghost var u := vol.View();
    OkReadable(u, ino);
    ReadableShape(vol.g, vol.image[..], vol.inodes[ino]);
    var ptrs := InodePointerBlocks(vol, vol.inodes[ino]);
    var whole := seq(|ptrs|, _ => vol.g.bsize);
    ReadyToFree(u, ino);
    FreeList(vol, ino, ptrs, whole);
    ghost var v := vol.View();
    RewrittenByFree(u, v, ino, ptrs);
    NotIn(data, ptrs);
    SplitHeld(vol.g, vol.own, ino, data, sizes, k);
    FreeList(vol, ino, data[k..], sizes[k..]);
    RewrittenByFree(v, vol.View(), ino, data[k..]);
    RewrittenTransitive(u, v, vol.View(), ino);
    SideGeometry(u, v);
    SideGeometry(v, vol.View());
    OnlyKept(u, live, ino, data, ptrs, k, vol.own);
    HeldAfter(vol.g, v.own, vol.own, ino, data, sizes, k);
  }

  lemma OnlyKept(u: Vol, live: set<nat>, ino: nat, data: seq<nat>, ptrs: seq<nat>, k: nat, own: map<nat, Claim>)
    requires FilesOk(u, live) && ino in live && Footprint(u, ino) == data + ptrs && k <= |data|
    requires own == u.own - Elems(ptrs) - Elems(data[k..])
    ensures forall b | b in own && own[b].ino == ino :: b in data[..k]
  {
    hide InodeOk, Footprint;
    assert data == data[..k] + data[k..];
  }

  lemma SplitHeld(g: Geometry, own: map<nat, Claim>, ino: nat, bs: seq<nat>, sizes: seq<nat>, k: nat)
    requires 0 < g.fsize && NoDup(bs) && Holds(g, own, ino, bs, sizes) && k <= |bs| && GoodSizes(g, sizes)
    ensures NoDup(bs[..k]) && NoDup(bs[k..]) && Holds(g, own, ino, bs[..k], sizes[..k]) && Holds(g, own, ino, bs[k..], sizes[k..])
    ensures GoodSizes(g, sizes[k..])
  {
    hide GoodSize;
  }

  lemma HeldAfter(g: Geometry, own: map<nat, Claim>, own': map<nat, Claim>, ino: nat, bs: seq<nat>, sizes: seq<nat>, k: nat)
    requires 0 < g.fsize && NoDup(bs) && Holds(g, own, ino, bs, sizes) && k <= |bs| && own' == own - Elems(bs[k..])
    ensures Holds(g, own', ino, bs[..k], sizes[..k])
  {
    forall i | 0 <= i < k ensures bs[i] in own' {
      assert bs[i] !in bs[k..];
    }
  }

  /** Allocates the new suffix behind the `kept` blocks and seeds it with the preserved bytes. */
  method GrowSuffix(vol: Volume, ino: nat, kept: seq<nat>, sizes: seq<nat>, size: nat, seed: seq<byte>) returns (r: Result<seq<nat>>)
    requires BlocksOk(vol.View()) && ino < |vol.inodes| && 0 < vol.g.bsize && 0 < vol.g.fsize
    requires sizes == AllocSizes(vol.g, size) && |kept| <= |sizes| && NoDup(kept)
    requires Holds(vol.g, vol.own, ino, kept, sizes[..|kept|])
    requires forall b | b in vol.own && vol.own[b].ino == ino :: b in kept
    requires seed == [] || Mul(|kept|, vol.g.bsize) + |seed| <= size
    modifies vol, vol.image
    ensures r.Ok? ==> BlocksOk(vol.View()) && Rewritten(old(vol.View()), vol.View(), ino) && vol.inodes == old(vol.inodes)
    ensures r.Ok? ==> NoDup(r.value) && Holds(vol.g, vol.own, ino, r.value, sizes) && kept <= r.value
    ensures r.Ok? ==> forall b | b in vol.own && vol.own[b].ino == ino :: b in r.value
    ensures r.Ok? ==> Joined(vol.g, old(vol.image[..]), kept) + seed <= Joined(vol.g, vol.image[..], r.value)
    ensures r.Err? ==> NoSpace(vol.g, vol.own)
  {
    hide NoSpace, GoodSize, BlocksOk, Rewritten, Region, Sizes, ValidGeometry, InodeSideSame, GoodBlock, OwnOk, GroupsOk, Joined, GoodBlocks, Covers, Mul;
    ghost var u := vol.View();
    BlocksShape(u);
    var k := |kept|;
    PlacedSizes(vol.g, size);
    assert GoodSizes(vol.g, sizes[k..]);
    var more := AllocateList(vol, ino, sizes[k..]);
    if more.Err? { return Err; }
    var bs := more.value;
    ghost var v := vol.View();
    BlocksShape(v);
    RewrittenByExtend(u, v, ino, bs, sizes[k..]);
    ExtendedSide(u, v, ino, bs, sizes[k..]);
    ExtendedList(u, v, ino, kept, bs, sizes);
    SuffixCovers(vol.g, size, k, |seed|);
    if seed != [] {
      WriteDataRange(vol, bs, sizes[k..], 0, seed);
    }
    ghost var w := vol.View();
    RewrittenByCopy(v, w, ino, bs);
    RewrittenTransitive(u, v, w, ino);
    ImageIrrelevant(v, w);
    KeptBytes(u, v, w, ino, kept, bs, sizes[k..]);
    assert seed <= Joined(vol.g, vol.image[..], bs);
    JoinedConcat(vol.g, vol.image[..], kept, bs);
    return Ok(kept + bs);
  }

  lemma ExtendedList(u: Vol, v: Vol, ino: nat, kept: seq<nat>, bs: seq<nat>, sizes: seq<nat>)
    requires 0 < u.g.fsize && |kept| <= |sizes| && NoDup(kept) && Holds(u.g, u.own, ino, kept, sizes[..|kept|])
    requires forall b | b in u.own && u.own[b].ino == ino :: b in kept
    requires Extended(u, v, ino, bs, sizes[|kept|..])
    ensures NoDup(kept + bs) && Holds(v.g, v.own, ino, kept + bs, sizes)
    ensures forall b | b in v.own && v.own[b].ino == ino :: b in kept + bs
    ensures forall i | 0 <= i < |bs| :: bs[i] in v.own && v.own[bs[i]].ino == ino
    ensures GoodBlocks(v.g, bs) && NoDup(bs) && |bs| == |sizes| - |kept|
  {
    hide Region, ValidGeometry, GoodBlock, SameExcept;
    SideGeometry(u, v);
    forall q | q in bs ensures q !in kept {
    }
    NoDupConcat(kept, bs);
  }

  /** The allocations past the first `k` cover the bytes that follow the first `k` blocks. */
  lemma SuffixCovers(g: Geometry, size: nat, k: nat, n: nat)
    requires ValidGeometry(g) && 0 < g.bsize && 0 < g.fsize && k <= |AllocSizes(g, size)| && (n == 0 || Mul(k, g.bsize) + n <= size)
    ensures n <= Mul(|AllocSizes(g, size)| - k, g.bsize) && Covers(g, AllocSizes(g, size)[k..], n)
  {
    hide Sizes, Mul, ValidGeometry;
    var sizes := AllocSizes(g, size);
    if n > 0 {
      AllocCovers(g, size, Mul(k, g.bsize) + n);
      MulAdd(k, |sizes| - k, g.bsize);
      forall i | 0 <= i < |sizes| - k && Mul(i, g.bsize) < n
        ensures Min(g.bsize, n - Mul(i, g.bsize)) <= sizes[k..][i]
      {
        MulAdd(k, i, g.bsize);
        assert sizes[k..][i] == sizes[k + i];
      }
    }
  }

  lemma KeptBytes(u: Vol, v: Vol, w: Vol, ino: nat, kept: seq<nat>, bs: seq<nat>, sizes: seq<nat>)
    requires BlocksOk(u) && Extended(u, v, ino, bs, sizes) && (forall i | 0 <= i < |kept| :: kept[i] in u.own)
    requires w == v.(img := w.img) && SameExcept(v.g, v.img, w.img, Elems(bs))
    ensures Joined(w.g, w.img, kept) == Joined(u.g, u.img, kept)
  {
    hide Region, ValidGeometry, GoodBlock, CgOk, InodeSideSame;
    SideGeometry(u, v);
    forall b | b in kept ensures Region(u.g, w.img, b) == Region(u.g, u.img, b) {
      assert b !in Elems(bs);
    }
    JoinedFrame(u.g, u.img, w.img, kept);
  }

  /** The seed is the part of the old contents that the freed blocks held. */
  lemma SeedIs(all: seq<byte>, front: seq<byte>, back: seq<byte>, c: seq<byte>, seed: seq<byte>, rebuilt: seq<byte>)
    requires all == front + back && |c| <= |all| && c == all[..|c|]
    requires seed == back[..Max(0, |c| - |front|)] && front + seed <= rebuilt
    ensures |c| <= |rebuilt| && rebuilt[..|c|] == c
  {
    if |c| <= |front| {
      assert c == front[..|c|] == rebuilt[..|c|];
    } else {
      assert c == front + seed;
    }
  }

  lemma OverwriteLonger(c: seq<byte>, longer: seq<byte>, at: nat, data: seq<byte>)
    requires at <= |c| <= |longer| && longer[..|c|] == c && |longer| == Max(|c|, at + |data|)
    ensures at <= |longer| && Overwrite(longer, at, data) == Overwrite(c, at, data)
  {
  }

  /** `apply_inode_write`: in place when the allocations do not change, else by replacing only their suffix. */
  method ApplyInodeWrite(vol: Volume, ino: nat, offset: nat, data: seq<byte>, ghost live: set<nat>) returns (r: Result<()>)
    requires BlocksOk(vol.View()) && FilesOk(vol.View(), live) && ino in live && offset <= vol.inodes[ino].size
    modifies vol, vol.image
    ensures r.Ok? ==> BlocksOk(vol.View()) && FilesOk(vol.View(), live) && Rewritten(old(vol.View()), vol.View(), ino)
    ensures r.Ok? ==> SameIdentity(old(vol.inodes[ino]), vol.inodes[ino])
    ensures r.Ok? ==> vol.inodes[ino].size == Max(old(vol.inodes[ino].size), offset + |data|)
    ensures |Contents(vol.g, old(vol.image[..]), old(vol.inodes[ino]))| == old(vol.inodes[ino].size)
    ensures r.Ok? ==> Contents(vol.g, vol.image[..], vol.inodes[ino]) == Overwrite(Contents(vol.g, old(vol.image[..]), old(vol.inodes[ino])), offset, data)
    ensures r.Ok? ==> vol.inodes[ino].blocks == Sectors(vol.g, vol.inodes[ino].size)
    ensures r.Ok? ==> FrontKept(AllocSizes(vol.g, old(vol.inodes[ino].size)), AllocSizes(vol.g, vol.inodes[ino].size),
                        DataBlocks(vol.g, old(vol.image[..]), old(vol.inodes[ino])), DataBlocks(vol.g, vol.image[..], vol.inodes[ino]))
    ensures r.Err? ==> NoSpace(vol.g, vol.own)
  {
    hide FrontKept, NoSpace, BlocksOk, FilesOk, Rewritten, InodeOk, Footprint, Contents, DataBlocks, PtrBlocks, Joined, Region, Sizes, ValidGeometry, OwnOk, GroupsOk, Readable, GoodBlocks, Splice, Sectors;
    ghost var u := vol.View();
    BlocksShape(u);
    FilesLive(u, live, ino);
    OkReadable(u, ino);
    ReadableShape(vol.g, vol.image[..], vol.inodes[ino]);
    DataReady(u, ino);
    var oldSize := vol.inodes[ino].size;
    var size := Max(oldSize, offset + |data|);
    var bs := InodeDataBlocks(vol, vol.inodes[ino]);
    var current := AllocationByteSizes(vol.g, oldSize);
    var requested := AllocationByteSizes(vol.g, size);
    if requested == current {
      WriteInPlace(vol, ino, bs, current, offset, data, size, live);
      PrefixKept(current, requested, bs, bs, |current|);
      OkSectors(vol.View(), live, ino);
      return Ok(());
    }
    ghost var c := Contents(vol.g, vol.image[..], vol.inodes[ino]);
    var rebuilt := ReplaceSuffix(vol, ino, bs, current, requested, size, live);
    if rebuilt.Err? { return Err; }
    ghost var w := vol.View();
    FilesLive(w, live, ino);
    DataReady(w, ino);
    OverwriteLonger(c, Contents(w.g, w.img, w.inodes[ino]), offset, data);
    WriteInPlace(vol, ino, rebuilt.value, requested, offset, data, size, live);
    RewrittenTransitive(u, w, vol.View(), ino);
    OkSectors(vol.View(), live, ino);
    return Ok(());
  }

  /** Replaces the blocks whose allocation changes, keeping the old bytes readable in front. */
  method ReplaceSuffix(vol: Volume, ino: nat, bs: seq<nat>, current: seq<nat>, requested: seq<nat>, size: nat, ghost live: set<nat>)
    returns (r: Result<seq<nat>>)
    requires BlocksOk(vol.View()) && FilesOk(vol.View(), live) && ino in live
    requires bs == DataBlocks(vol.g, vol.image[..], vol.inodes[ino]) && vol.inodes[ino].size <= size
    requires current == AllocSizes(vol.g, vol.inodes[ino].size) && requested == AllocSizes(vol.g, size)
    modifies vol, vol.image
    ensures r.Ok? ==> BlocksOk(vol.View()) && FilesOk(vol.View(), live) && Rewritten(old(vol.View()), vol.View(), ino)
    ensures r.Ok? ==> SameIdentity(old(vol.inodes[ino]), vol.inodes[ino]) && vol.inodes[ino].size == size
    ensures r.Ok? ==> r.value == DataBlocks(vol.g, vol.image[..], vol.inodes[ino]) && FrontKept(current, requested, bs, r.value)
    ensures r.Ok? ==> Contents(vol.g, old(vol.image[..]), old(vol.inodes[ino])) <= Contents(vol.g, vol.image[..], vol.inodes[ino])
    ensures r.Err? ==> NoSpace(vol.g, vol.own)
  {
    hide NoSpace, BlocksOk, FilesOk, Rewritten, InodeOk, Footprint, Contents, DataBlocks, Joined, Region, Sizes, ValidGeometry, OwnOk, GroupsOk, Inside, Mul, Slice, NoDup, Holds, GoodBlocks;
    ghost var u := vol.View();
    BlocksShape(u);
    FilesLive(u, live, ino);
    DataReady(u, ino);
    var oldSize := vol.inodes[ino].size;
    var k := CommonPrefix(current, requested);
    var at := Mul(k, vol.g.bsize);
    var keep := if oldSize > at then oldSize - at else 0;
    MulAdd(k, |bs| - k, vol.g.bsize);
    GoodInside(vol.g, vol.image[..], bs);
    InsideSplit(vol.g, vol.image[..], bs, k);
    var seed := ReadDataRange(vol, bs[k..], 0, keep);
    JoinedLength(vol.g, vol.image[..], bs[..k]);
    ghost var front, back := Joined(vol.g, vol.image[..], bs[..k]), Joined(vol.g, vol.image[..], bs[k..]);
    JoinedConcat(vol.g, vol.image[..], bs[..k], bs[k..]);
    assert bs[..k] + bs[k..] == bs;
    SliceFits(back, keep);
    ReleaseSuffix(vol, ino, bs, current, k, live);
    ghost var v := vol.View();
    var grown := GrowSuffix(vol, ino, bs[..k], requested, size, seed);
    if grown.Err? { return Err; }
    ghost var x := vol.View();
    RewrittenTransitive(u, v, x, ino);
    SeedIs(front + back, front, back, Contents(u.g, u.img, u.inodes[ino]), seed, Joined(x.g, x.img, grown.value));
    var done := Install(vol, ino, grown.value, requested, size);
    if done.Err? { return Err; }
    ghost var w := vol.View();
    RewrittenTransitive(u, x, w, ino);
    RewrittenFiles(u, w, live, ino);
    DataReady(w, ino);
    PrefixKept(current, requested, bs, grown.value, k);
    return Ok(grown.value);
  }

  lemma SliceFits(all: seq<byte>, n: nat)
    requires n <= |all|
    ensures Slice(all, 0, n) == all[..n]
  {
  }

  lemma InsideSplit(g: Geometry, img: seq<byte>, bs: seq<nat>, k: nat)
    requires Inside(g, img, bs) && k <= |bs|
    ensures Inside(g, img, bs[..k]) && Inside(g, img, bs[k..])
  {
  }
}
