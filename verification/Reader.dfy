/** Reading an inode's block lists and bytes back from the image. */
module Reader {
  import opened Arith
  import opened Geometry
  import opened Codec
  import opened VolumeState
  import opened Alloc
  import opened Pointers
  import opened Inodes

  /** Every listed block lies inside the image. */
  ghost predicate Inside(g: Geometry, img: seq<byte>, bs: seq<nat>) {
    forall i | 0 <= i < |bs| :: Mul(bs[i], g.fsize) + g.bsize <= |img|
  }

  lemma InsideParts(g: Geometry, img: seq<byte>, a: seq<nat>, b: seq<nat>)
    requires Inside(g, img, a + b)
    ensures Inside(g, img, a) && Inside(g, img, b)
  {
    forall i | 0 <= i < |a| ensures Mul(a[i], g.fsize) + g.bsize <= |img| { assert (a + b)[i] == a[i]; }
    forall i | 0 <= i < |b| ensures Mul(b[i], g.fsize) + g.bsize <= |img| { assert (a + b)[|a| + i] == b[i]; }
  }

  /** `read_pointer_block`. */
  method ReadPointerBlock(vol: Volume, b: nat) returns (r: seq<nat>)
    requires 4 * vol.g.nindir <= vol.g.bsize && Mul(b, vol.g.fsize) + vol.g.bsize <= vol.image.Length
    ensures r == ReadPtrs(vol.g, vol.image[..], b)
  {
    var lo := Mul(b, vol.g.fsize);
    var raw := vol.image[lo..lo + vol.g.bsize];
    assert raw == Region(vol.g, vol.image[..], b);
    r := seq(vol.g.nindir, i requires 0 <= i < vol.g.nindir => U32At(raw, 4 * i));
  }

  /** Unfolding the walks by one pointer. */
  lemma WalkStep(g: Geometry, img: seq<byte>, ps: seq<nat>, i: nat, levels: nat)
    requires 0 < levels && i < |ps|
    ensures LeavesOf(g, img, ps[..i + 1], levels) == LeavesOf(g, img, ps[..i], levels) + Under(g, img, ps[i], levels)
    ensures InnerOf(g, img, ps[..i + 1], levels) == InnerOf(g, img, ps[..i], levels) + Inner(g, img, ps[i], levels - 1)
    ensures LeavesOf(g, img, ps[..i + 1], levels) <= LeavesOf(g, img, ps, levels)
    ensures ps[i] == 0 ==> Under(g, img, ps[i], levels) == [] && Inner(g, img, ps[i], levels - 1) == []
    ensures levels == 1 && ps[i] != 0 ==> Under(g, img, ps[i], levels) == [ps[i]]
    ensures levels > 1 ==> Under(g, img, ps[i], levels) == Leaves(g, img, ps[i], levels - 1)
  {
    assert ps[..i + 1][..i] == ps[..i];
    LeavesGrow(g, img, ps, i + 1, levels);
  }

  lemma NoWalk(g: Geometry, img: seq<byte>, b: nat, levels: nat)
    ensures b == 0 || levels == 0 ==> Leaves(g, img, b, levels) == [] == Inner(g, img, b, levels)
  {
  }

  lemma WalkRoot(g: Geometry, img: seq<byte>, b: nat, levels: nat)
    requires b != 0 && 0 < levels
    ensures Leaves(g, img, b, levels) == LeavesOf(g, img, ReadPtrs(g, img, b), levels)
    ensures levels > 1 ==> Inner(g, img, b, levels) == [b] + InnerOf(g, img, ReadPtrs(g, img, b), levels)
    ensures levels == 1 ==> Inner(g, img, b, levels) == [b]
    ensures LeavesOf(g, img, [], levels) == [] == InnerOf(g, img, [], levels)
  {
  }

  /** `collect_indirect_data_blocks`: the first `max` leaves of the tree. */
  method CollectData(vol: Volume, b: nat, levels: nat, max: nat) returns (r: seq<nat>)
    requires 4 * vol.g.nindir <= vol.g.bsize && Inside(vol.g, vol.image[..], Inner(vol.g, vol.image[..], b, levels))
    ensures r == Prefix(Leaves(vol.g, vol.image[..], b, levels), max)
    decreases levels
  {
    hide Leaves, LeavesOf, Inner, InnerOf, Under, ReadPtrs;
    ghost var g, img := vol.g, vol.image[..];
    NoWalk(g, img, b, levels);
    if b == 0 || levels == 0 || max == 0 {
      return [];
    }
    WalkRoot(g, img, b, levels);
    r := [];
    assert Inner(g, img, b, levels)[0] == b;
    var ps := ReadPointerBlock(vol, b);
    for i := 0 to |ps|
      invariant |r| < max && r == LeavesOf(g, img, ps[..i], levels)
    {
      WalkStep(g, img, ps, i, levels);
      if ps[i] != 0 {
        if levels == 1 {
          r := r + [ps[i]];
        } else {
          ChildInside(g, img, b, levels, i);
          var child := CollectData(vol, ps[i], levels - 1, max - |r|);
          r := r + child;
        }
      }
      if |r| >= max {
        return r;
      }
    }
    assert ps[..|ps|] == ps;
  }

  lemma {:induction false} LeavesGrow(g: Geometry, img: seq<byte>, ps: seq<nat>, k: nat, levels: nat)
    requires 0 < levels && k <= |ps|
    ensures LeavesOf(g, img, ps[..k], levels) <= LeavesOf(g, img, ps, levels)
    decreases |ps|
  {
    if k == |ps| {
      assert ps[..k] == ps;
    } else {
      LeavesGrow(g, img, ps[..|ps| - 1], k, levels);
      assert ps[..|ps| - 1][..k] == ps[..k];
    }
  }

  lemma {:induction false} InnerPart(g: Geometry, img: seq<byte>, ps: seq<nat>, i: nat, levels: nat)
    requires 0 < levels && i < |ps| && Inside(g, img, InnerOf(g, img, ps, levels))
    ensures Inside(g, img, Inner(g, img, ps[i], levels - 1))
    decreases |ps|
  {
    var n := |ps| - 1;
    InsideParts(g, img, InnerOf(g, img, ps[..n], levels), Inner(g, img, ps[n], levels - 1));
    if i < n { InnerPart(g, img, ps[..n], i, levels); }
  }

  lemma ChildInside(g: Geometry, img: seq<byte>, b: nat, levels: nat, i: nat)
    requires b != 0 && 1 < levels && i < |ReadPtrs(g, img, b)| && Inside(g, img, Inner(g, img, b, levels))
    ensures Inside(g, img, Inner(g, img, ReadPtrs(g, img, b)[i], levels - 1))
  {
    InsideParts(g, img, [b], InnerOf(g, img, ReadPtrs(g, img, b), levels));
    InnerPart(g, img, ReadPtrs(g, img, b), i, levels);
  }

  /** `collect_indirect_pointer_blocks`. */
  method CollectPointers(vol: Volume, b: nat, levels: nat) returns (r: seq<nat>)
    requires 4 * vol.g.nindir <= vol.g.bsize && Inside(vol.g, vol.image[..], Inner(vol.g, vol.image[..], b, levels))
    ensures r == Inner(vol.g, vol.image[..], b, levels)
    decreases levels
  {
    hide Leaves, LeavesOf, Inner, InnerOf, Under, ReadPtrs;
    ghost var g, img := vol.g, vol.image[..];
    NoWalk(g, img, b, levels);
    if b == 0 || levels == 0 {
      return [];
    }
    WalkRoot(g, img, b, levels);
    r := [b];
    if levels == 1 {
      return r;
    }
    assert Inner(g, img, b, levels)[0] == b;
    var ps := ReadPointerBlock(vol, b);
    for i := 0 to |ps|
      invariant r == [b] + InnerOf(g, img, ps[..i], levels)
    {
      WalkStep(g, img, ps, i, levels);
      if ps[i] != 0 {
        ChildInside(g, img, b, levels, i);
        var child := CollectPointers(vol, ps[i], levels - 1);
        r := r + child;
      }
    }
    assert ps[..|ps|] == ps;
  }

  /** `inode_pointer_blocks`. */
  method InodePointerBlocks(vol: Volume, d: Dinode) returns (r: seq<nat>)
    requires 4 * vol.g.nindir <= vol.g.bsize && Inside(vol.g, vol.image[..], PtrBlocks(vol.g, vol.image[..], d))
    ensures r == PtrBlocks(vol.g, vol.image[..], d)
  {
    hide Inner;
    ghost var g, img := vol.g, vol.image[..];
    InsideParts(g, img, Inner(g, img, d.ib1, 1) + Inner(g, img, d.ib2, 2), Inner(g, img, d.ib3, 3));
    InsideParts(g, img, Inner(g, img, d.ib1, 1), Inner(g, img, d.ib2, 2));
    var a := CollectPointers(vol, d.ib1, 1);
    var b := CollectPointers(vol, d.ib2, 2);
    var c := CollectPointers(vol, d.ib3, 3);
    r := a + b + c;
  }

  /** `inode_data_blocks`. */
  method InodeDataBlocks(vol: Volume, d: Dinode) returns (r: seq<nat>)
    requires 0 < vol.g.bsize && 4 * vol.g.nindir <= vol.g.bsize
    requires Inside(vol.g, vol.image[..], PtrBlocks(vol.g, vol.image[..], d))
    ensures r == DataBlocks(vol.g, vol.image[..], d)
  {
    hide Inner, Leaves, Need, Inside;
    ghost var g, img := vol.g, vol.image[..];
    var needed := Need(vol.g, d.size);
    r := [];
    for i := 0 to |d.direct|
      invariant r == NonZero(d.direct[..i]) && (r != [] ==> |r| < needed)
    {
      assert d.direct[..i + 1][..i] == d.direct[..i];
      if d.direct[i] != 0 {
        r := r + [d.direct[i]];
        if |r| >= needed {
          NonZeroGrow(d.direct, i + 1);
          return r[..needed];
        }
      }
    }
    assert d.direct[..|d.direct|] == d.direct;
    InsideParts(g, img, Inner(g, img, d.ib1, 1) + Inner(g, img, d.ib2, 2), Inner(g, img, d.ib3, 3));
    InsideParts(g, img, Inner(g, img, d.ib1, 1), Inner(g, img, d.ib2, 2));
    r := ExtendBlocks(vol, d.ib1, 1, needed, r);
    if |r| >= needed { return; }
    r := ExtendBlocks(vol, d.ib2, 2, needed, r);
    if |r| >= needed { return; }
    r := ExtendBlocks(vol, d.ib3, 3, needed, r);
  }

  lemma {:induction false} NonZeroGrow(s: seq<nat>, k: nat)
    requires k <= |s|
    ensures NonZero(s[..k]) <= NonZero(s)
    decreases |s|
  {
    if k == |s| { assert s[..k] == s; }
    else {
      NonZeroGrow(s[..|s| - 1], k);
      assert s[..|s| - 1][..k] == s[..k];
    }
  }

  method ExtendBlocks(vol: Volume, root: nat, levels: nat, needed: nat, have: seq<nat>) returns (r: seq<nat>)
    requires 4 * vol.g.nindir <= vol.g.bsize && Inside(vol.g, vol.image[..], Inner(vol.g, vol.image[..], root, levels))
    requires |have| <= needed || have == []
    ensures r == Prefix(have + Leaves(vol.g, vol.image[..], root, levels), needed)
  {
    hide Inner, Leaves;
    var remaining := Max(needed - |have|, 0);
    var more := CollectData(vol, root, levels, remaining);
    r := have + more;
  }

  // --- byte ranges -----------------------------------------------------------

  lemma {:induction false} JoinedLength(g: Geometry, img: seq<byte>, bs: seq<nat>)
    requires Inside(g, img, bs)
    ensures |Joined(g, img, bs)| == Mul(|bs|, g.bsize)
    decreases |bs|
  {
    if bs != [] { JoinedLength(g, img, bs[..|bs| - 1]); }
  }

  /** Block `i` occupies bytes `[i * bsize, (i + 1) * bsize)` of the joined contents. */
  lemma {:induction false} JoinedAt(g: Geometry, img: seq<byte>, bs: seq<nat>, i: nat)
    requires Inside(g, img, bs) && i < |bs|
    ensures Mul(i, g.bsize) + g.bsize <= |Joined(g, img, bs)| == Mul(|bs|, g.bsize)
    ensures Joined(g, img, bs)[Mul(i, g.bsize)..Mul(i, g.bsize) + g.bsize] == Region(g, img, bs[i])
    decreases |bs|
  {
    JoinedLength(g, img, bs);
    var n := |bs| - 1;
    JoinedLength(g, img, bs[..n]);
    if i < n {
      JoinedAt(g, img, bs[..n], i);
    }
  }

  /** `all` between two offsets, cut at its end. */
  ghost function Slice(all: seq<byte>, lo: nat, hi: nat): seq<byte>
    requires lo <= hi
  {
    all[Min(lo, |all|)..Min(hi, |all|)]
  }

  /** The part of the range below `at`. */
  ghost function Got(all: seq<byte>, offset: nat, end: nat, at: nat): seq<byte>
    requires offset <= |all| && at <= |all|
  {
    all[offset..Max(offset, Min(end, at))]
  }

  /** `read_data_range`: the range of the joined blocks, as far as they go. */
  method ReadDataRange(vol: Volume, bs: seq<nat>, offset: nat, size: nat) returns (data: seq<byte>)
    requires 0 < vol.g.bsize && Inside(vol.g, vol.image[..], bs)
    ensures |Joined(vol.g, vol.image[..], bs)| == Mul(|bs|, vol.g.bsize)
    ensures data == Slice(Joined(vol.g, vol.image[..], bs), offset, offset + size)
  {
    hide Joined, Region, Quot, Mul, Got;
    ghost var g, img := vol.g, vol.image[..];
    ghost var all := Joined(g, img, bs);
    JoinedLength(g, img, bs);
    data := [];
    if size == 0 {
      return;
    }
    var bsize, end := vol.g.bsize, offset + size;
    var first, last := Quot(offset, bsize), Min(|bs|, Quot(end + bsize - 1, bsize));
    RangeBounds(bsize, offset, end, |bs|);
    if first >= last {
      return;
    }
    GotEnds(all, offset, end, Mul(first, bsize), Mul(last, bsize));
    RangeStart(bsize, offset, first, last, |bs|);
    for i := first to last
      invariant Mul(i, bsize) <= |all| && data == Got(all, offset, end, Mul(i, bsize))
    {
      var start := Mul(i, bsize);
      MulSucc(i, bsize);
      var lo := Max(offset - start, 0);
      var hi := Min(bsize, end - start);
      BlockStart(bsize, offset, end, i);
      JoinedAt(g, img, bs, i);
      SliceStep(all, offset, end, start, bsize);
      if lo < hi {
        var part := ReadPart(vol, bs[i], lo, hi);
        SliceOfSlice(all, start, start + bsize, lo, hi);
        data := data + part;
      }
    }
  }

  /** What one block adds to the bytes read so far. */
  lemma SliceStep(all: seq<byte>, offset: nat, end: nat, start: nat, bsize: nat)
    requires start + bsize <= |all| && start < end && offset < end && offset < start + bsize
    ensures var lo, hi := Max(offset - start, 0), Min(bsize, end - start);
      Got(all, offset, end, start + bsize) == Got(all, offset, end, start) + if lo < hi then all[start + lo..start + hi] else []
  {
  }

  lemma GotEnds(all: seq<byte>, offset: nat, end: nat, first: nat, last: nat)
    ensures first <= offset <= |all| ==> Got(all, offset, end, first) == []
    ensures offset < end && offset <= |all| && Min(end, |all|) <= last <= |all| ==> Got(all, offset, end, last) == Slice(all, offset, end)
  {
  }

  /** Bytes `[lo, hi)` of block `b`. */
  method ReadPart(vol: Volume, b: nat, lo: nat, hi: nat) returns (r: seq<byte>)
    requires lo <= hi <= vol.g.bsize && Mul(b, vol.g.fsize) + vol.g.bsize <= vol.image.Length
    ensures |Region(vol.g, vol.image[..], b)| == vol.g.bsize && r == Region(vol.g, vol.image[..], b)[lo..hi]
  {
    var at := Mul(b, vol.g.fsize);
    r := vol.image[at + lo..at + hi];
    SliceOfSlice(vol.image[..], at, at + vol.g.bsize, lo, hi);
  }

  lemma RangeBounds(bsize: nat, offset: nat, end: nat, n: nat)
    requires 0 < bsize && offset < end
    ensures Quot(offset, bsize) < Quot(end + bsize - 1, bsize)
    ensures Mul(Quot(offset, bsize), bsize) <= offset
    ensures Min(end, Mul(n, bsize)) <= Mul(Min(n, Quot(end + bsize - 1, bsize)), bsize)
    ensures n <= Quot(offset, bsize) ==> Mul(n, bsize) <= offset
    ensures end <= Mul(n, bsize) ==> Quot(offset, bsize) <= Min(n, Quot(end + bsize - 1, bsize))
  {
    var q, r := Quot(offset, bsize), Quot(end + bsize - 1, bsize);
    Recompose(offset, bsize);
    Recompose(end + bsize - 1, bsize);
    if r <= q { MulAdd(r, q - r, bsize); }
    if n <= q { MulAdd(n, q - n, bsize); }
  }

  lemma RangeStart(bsize: nat, offset: nat, first: nat, last: nat, n: nat)
    requires 0 < bsize && first == Quot(offset, bsize) < last <= n
    ensures Mul(first, bsize) <= offset < Mul(last, bsize) <= Mul(n, bsize)
  {
    Recompose(offset, bsize);
    MulLess(first, last, bsize);
    MulAdd(last, n - last, bsize);
  }

  lemma BlockStart(bsize: nat, offset: nat, end: nat, i: nat)
    requires 0 < bsize && offset < end && Quot(offset, bsize) <= i < Quot(end + bsize - 1, bsize)
    ensures Mul(i, bsize) < end && offset < Mul(i, bsize) + bsize
  {
    Recompose(offset, bsize);
    Recompose(end + bsize - 1, bsize);
    MulLess(i, Quot(end + bsize - 1, bsize), bsize);
    if Quot(offset, bsize) < i { MulLess(Quot(offset, bsize), i, bsize); }
  }

  /** The walks of `d` stay inside the image. */
  ghost predicate Walks(g: Geometry, img: seq<byte>, d: Dinode) {
    && 0 < g.bsize && 4 * g.nindir <= g.bsize
    && Inside(g, img, PtrBlocks(g, img, d)) && Inside(g, img, DataBlocks(g, img, d))
  }

  /** They also supply every block its size needs. */
  ghost predicate Readable(g: Geometry, img: seq<byte>, d: Dinode) {
    Walks(g, img, d) && |DataBlocks(g, img, d)| == Need(g, d.size)
  }

  lemma NeedCovers(g: Geometry, size: nat)
    requires 0 < g.bsize
    ensures size <= Mul(Need(g, size), g.bsize) < size + g.bsize
  {
    Recompose(size + g.bsize - 1, g.bsize);
  }

  /** `read_inode_bytes`: the contents, short when blocks are missing. */
  method ReadInodeBytes(vol: Volume, d: Dinode) returns (r: seq<byte>)
    requires Walks(vol.g, vol.image[..], d)
    ensures r == Contents(vol.g, vol.image[..], d)
    ensures Readable(vol.g, vol.image[..], d) ==> |r| == d.size
  {
    hide Joined, DataBlocks, PtrBlocks, Inside, Need, Mul;
    NeedCovers(vol.g, d.size);
    JoinedLength(vol.g, vol.image[..], DataBlocks(vol.g, vol.image[..], d));
    if d.size == 0 {
      return [];
    }
    var bs := InodeDataBlocks(vol, d);
    r := ReadDataRange(vol, bs, 0, d.size);
  }

  /** `read_inode_range`: the clamped slice of the contents. */
  method ReadInodeRange(vol: Volume, d: Dinode, offset: nat, size: nat) returns (r: seq<byte>)
    requires Walks(vol.g, vol.image[..], d)
    ensures r == Slice(Contents(vol.g, vol.image[..], d), offset, offset + size)
    ensures Readable(vol.g, vol.image[..], d) ==> |Contents(vol.g, vol.image[..], d)| == d.size
  {
    hide Joined, DataBlocks, PtrBlocks, Inside, Need, Mul;
    NeedCovers(vol.g, d.size);
    ghost var all := Joined(vol.g, vol.image[..], DataBlocks(vol.g, vol.image[..], d));
    JoinedLength(vol.g, vol.image[..], DataBlocks(vol.g, vol.image[..], d));
    if size == 0 || offset >= d.size {
      return [];
    }
    var clamped := Min(size, d.size - offset);
    var bs := InodeDataBlocks(vol, d);
    r := ReadDataRange(vol, bs, offset, clamped);
    SliceOfHead(all, d.size, offset, size);
  }

  /** Clamping to the size first, or slicing the contents, is the same. */
  lemma SliceOfHead(all: seq<byte>, size: nat, offset: nat, n: nat)
    requires offset < size
    ensures Slice(all, offset, offset + Min(n, size - offset)) == Slice(Head(all, size), offset, offset + n)
  {
  }

  lemma OwnedInside(v: Vol, bs: seq<nat>)
    requires BlocksOk(v) && forall i | 0 <= i < |bs| :: bs[i] in v.own
    ensures Inside(v.g, v.img, bs)
  {
    hide CgOk;
    forall i | 0 <= i < |bs| ensures Mul(bs[i], v.g.fsize) + v.g.bsize <= |v.img| {
      RegionInside(v.g, bs[i]);
    }
  }

  /** An inode that satisfies the invariant can be read. */
  lemma OkReadable(v: Vol, n: nat)
    requires BlocksOk(v) && 0 < v.g.bsize && n < |v.inodes| && InodeOk(v, n)
    ensures Readable(v.g, v.img, v.inodes[n])
  {
    hide BlocksOk, DataBlocks, PtrBlocks, Inside, Sizes;
    BlocksShape(v);
    OwnedInside(v, DataBlocks(v.g, v.img, v.inodes[n]));
    OwnedInside(v, PtrBlocks(v.g, v.img, v.inodes[n]));
    SizesShape(v.g, v.inodes[n].size, Need(v.g, v.inodes[n].size) > NDADDR);
  }
}
