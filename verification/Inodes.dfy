/**
 What an inode's size and pointers mean: its data blocks, its pointer blocks,
 the allocation each block needs and the bytes the file holds.
 */
module Inodes {
  import opened Arith
  import opened Geometry
  import opened Codec
  import opened VolumeState
  import opened Alloc
  import opened Pointers

  // --- sizes -----------------------------------------------------------------

  /** Blocks a file of `size` bytes needs. */
  function Need(g: Geometry, size: nat): nat
    requires 0 < g.bsize
  {
    if size == 0 then 0 else Quot(size + g.bsize - 1, g.bsize)
  }

  /** `fragroundup`: `size` rounded up to whole fragments. */
  function FragRoundUp(g: Geometry, size: nat): nat
    requires 0 < g.fsize
  {
    Mul(Quot(size + g.fsize - 1, g.fsize), g.fsize)
  }

  /** Allocation sizes for `size` remaining bytes; `whole` forces full blocks. */
  function Sizes(g: Geometry, size: nat, whole: bool): seq<nat>
    requires 0 < g.bsize && 0 < g.fsize
    decreases size
  {
    if size == 0 then []
    else if size < g.bsize then [if whole then g.bsize else FragRoundUp(g, size)]
    else [g.bsize] + Sizes(g, size - g.bsize, whole)
  }

  /** Per-block allocation sizes of a file: full blocks except a fragment tail on direct-only files. */
  function AllocSizes(g: Geometry, size: nat): seq<nat>
    requires 0 < g.bsize && 0 < g.fsize
  {
    Sizes(g, size, Need(g, size) > NDADDR)
  }

  /** An allocation size is a whole number of fragments, at least one, at most a block. */
  ghost predicate GoodSize(g: Geometry, a: nat)
    requires 0 < g.fsize
  {
    1 <= Quot(a, g.fsize) <= g.frag && a == Mul(Quot(a, g.fsize), g.fsize)
  }

  lemma FragRoundUpGood(g: Geometry, size: nat)
    requires ValidGeometry(g) && 0 < size <= g.bsize
    ensures GoodSize(g, FragRoundUp(g, size)) && size <= FragRoundUp(g, size) <= g.bsize
  {
    var q := Quot(size + g.fsize - 1, g.fsize);
    Recompose(size + g.fsize - 1, g.fsize);
    Decompose(q, 0, g.fsize);
    if q > g.frag { MulLess(g.frag, q, g.fsize); }
    MulAdd(q, g.frag - q, g.fsize);
  }

  lemma WholeGood(g: Geometry)
    requires ValidGeometry(g)
    ensures GoodSize(g, g.bsize) && Quot(g.bsize, g.fsize) == g.frag
  {
    Decompose(g.frag, 0, g.fsize);
  }

  lemma BsizePositive(g: Geometry)
    requires ValidGeometry(g)
    ensures 0 < g.fsize <= g.bsize
  {
    MulAdd(1, g.frag - 1, g.fsize);
  }

  lemma NeedStep(g: Geometry, size: nat)
    requires 0 < g.bsize <= size
    ensures Need(g, size) == 1 + Need(g, size - g.bsize)
  {
    assert Quot(size + g.bsize - 1, g.bsize) == 1 + Quot(size - 1, g.bsize);
    assert size - g.bsize + g.bsize - 1 == size - 1;
  }

  /** One allocation per needed block, each large enough for its share of the bytes. */
  lemma {:induction false} SizesShape(g: Geometry, size: nat, whole: bool)
    requires ValidGeometry(g) && 0 < g.bsize
    ensures |Sizes(g, size, whole)| == Need(g, size)
    ensures forall i | 0 <= i < |Sizes(g, size, whole)| :: GoodSize(g, Sizes(g, size, whole)[i])
    decreases size
  {
    if size >= g.bsize {
      NeedStep(g, size);
      WholeGood(g);
      SizesShape(g, size - g.bsize, whole);
    } else if size > 0 {
      WholeGood(g);
      FragRoundUpGood(g, size);
      assert Quot(size + g.bsize - 1, g.bsize) == 1 + Quot(size - 1, g.bsize);
    }
  }

  /** What the allocations of a file must be: one per block of its bytes, all of them whole blocks but the last of a
      file that fits the direct slots, which takes just enough fragments for the bytes left. */
  ghost predicate Fitted(g: Geometry, size: nat, r: seq<nat>)
    requires 0 < g.fsize
  {
    if size == 0 then r == []
    else
      && 0 < |r| && (|r| - 1) * g.bsize < size <= |r| * g.bsize
      && (forall i | 0 <= i < |r| - 1 :: r[i] == g.bsize)
      && TailFits(g, size - (|r| - 1) * g.bsize, |r| <= NDADDR, r[|r| - 1])
  }

  ghost predicate TailFits(g: Geometry, tail: nat, direct: bool, a: nat)
    requires 0 < g.fsize
  {
    if direct then a % g.fsize == 0 && tail <= a < tail + g.fsize else a == g.bsize
  }

  lemma TailSize(g: Geometry, tail: nat, whole: bool)
    requires ValidGeometry(g) && 0 < tail <= g.bsize
    ensures TailFits(g, tail, !whole, if tail == g.bsize || whole then g.bsize else FragRoundUp(g, tail))
  {
    hide Capacity;
    var q := Quot(tail + g.fsize - 1, g.fsize);
    Recompose(tail + g.fsize - 1, g.fsize);
    MulIsProduct(q, g.fsize);
    MulIsProduct(g.frag, g.fsize);
    Multiple(q, g.fsize);
    Multiple(g.frag, g.fsize);
  }

  lemma Multiple(q: nat, d: nat)
    requires 0 < d
    ensures q * d % d == 0
  {
    MulIsProduct(q, d);
    Decompose(q, 0, d);
    QuotIsDivision(q * d, d);
  }

  lemma {:induction false} SizesAre(g: Geometry, size: nat, whole: bool)
    requires ValidGeometry(g) && 0 < g.bsize && 0 < g.fsize && 0 < size
    ensures var r := Sizes(g, size, whole);
      && 0 < |r| && (|r| - 1) * g.bsize < size <= |r| * g.bsize
      && (forall i | 0 <= i < |r| - 1 :: r[i] == g.bsize)
      && TailFits(g, size - (|r| - 1) * g.bsize, !whole, r[|r| - 1])
    decreases size
  {
    hide ValidGeometry, FragRoundUp, TailFits;
    if size > g.bsize {
      SizesAre(g, size - g.bsize, whole);
      var rest := Sizes(g, size - g.bsize, whole);
      OneMoreBlock(|rest|, g.bsize);
    } else {
      TailSize(g, size, whole);
      assert size == g.bsize ==> Sizes(g, 0, whole) == [];
    }
  }

  lemma OneMoreBlock(n: nat, bsize: nat)
    ensures n * bsize + bsize == (n + 1) * bsize && 0 < n ==> (n - 1) * bsize + bsize == n * bsize
  {
  }

  /** The allocations of every file are as they must be. */
  lemma SizesFitted(g: Geometry, size: nat)
    requires ValidGeometry(g) && 0 < g.bsize && 0 < g.fsize
    ensures Fitted(g, size, AllocSizes(g, size))
  {
    hide ValidGeometry, Need, TailFits;
    SizesShape(g, size, Need(g, size) > NDADDR);
    if size > 0 { SizesAre(g, size, Need(g, size) > NDADDR); }
  }

  /** `allocation_byte_sizes`. */
  method AllocationByteSizes(g: Geometry, size: nat) returns (r: seq<nat>)
    requires 0 < g.bsize && 0 < g.fsize
    ensures r == AllocSizes(g, size)
    ensures ValidGeometry(g) ==> Fitted(g, size, r)
  {
    hide Need, FragRoundUp, Fitted, ValidGeometry;
    if ValidGeometry(g) { SizesFitted(g, size); }
    var whole := Need(g, size) > NDADDR;
    r := [];
    var remaining: int := size;
    while remaining > 0
      invariant remaining <= size
      invariant r + Sizes(g, Max(remaining, 0), whole) == Sizes(g, size, whole)
    {
      var logical := Min(g.bsize, remaining);
      if logical == g.bsize || whole {
        r := r + [g.bsize];
      } else {
        r := r + [FragRoundUp(g, logical)];
      }
      remaining := remaining - g.bsize;
    }
  }

  // --- block lists -----------------------------------------------------------

  ghost function NonZero(s: seq<nat>): seq<nat> {
    if s == [] then [] else NonZero(s[..|s| - 1]) + if s[|s| - 1] == 0 then [] else [s[|s| - 1]]
  }

  ghost function Prefix(s: seq<nat>, n: nat): seq<nat> { if n <= |s| then s[..n] else s }

  /** Every block an inode points at, direct then by indirect level. */
  ghost function Reachable(g: Geometry, img: seq<byte>, d: Dinode): seq<nat> {
    NonZero(d.direct) + Leaves(g, img, d.ib1, 1) + Leaves(g, img, d.ib2, 2) + Leaves(g, img, d.ib3, 3)
  }

  /** The data blocks backing the file: as many of those as its size needs. */
  ghost function DataBlocks(g: Geometry, img: seq<byte>, d: Dinode): seq<nat>
    requires 0 < g.bsize
  {
    Prefix(Reachable(g, img, d), Need(g, d.size))
  }

  ghost function PtrBlocks(g: Geometry, img: seq<byte>, d: Dinode): seq<nat> {
    Inner(g, img, d.ib1, 1) + Inner(g, img, d.ib2, 2) + Inner(g, img, d.ib3, 3)
  }

  /** Where block `k` of the file is: in a direct slot, or behind the indirect root whose range `k` falls into. */
  ghost function BlockOf(g: Geometry, img: seq<byte>, d: Dinode, k: nat): nat
    requires |d.direct| == NDADDR
  {
    var single, double := NDADDR + Reach(g.nindir, 1), NDADDR + Reach(g.nindir, 1) + Reach(g.nindir, 2);
    if k < NDADDR then d.direct[k]
    else if k < single then EntryOf(g, img, d.ib1, 1, k - NDADDR)
    else if k < double then EntryOf(g, img, d.ib2, 2, k - single)
    else EntryOf(g, img, d.ib3, 3, k - double)
  }

  /** Every block of the file is found by its number. */
  ghost predicate Mapped(g: Geometry, img: seq<byte>, d: Dinode)
    requires 0 < g.bsize
  {
    && |d.direct| == NDADDR
    && forall k | 0 <= k < |DataBlocks(g, img, d)| :: BlockOf(g, img, d, k) == DataBlocks(g, img, d)[k]
  }

  /** The bytes of a list of blocks, end to end. */
  ghost function Joined(g: Geometry, img: seq<byte>, bs: seq<nat>): seq<byte> {
    if bs == [] then [] else Joined(g, img, bs[..|bs| - 1]) + Region(g, img, bs[|bs| - 1])
  }

  ghost function Head(s: seq<byte>, n: nat): seq<byte> { if n <= |s| then s[..n] else s }

  /** The bytes a reader of the inode sees. */
  ghost function Contents(g: Geometry, img: seq<byte>, d: Dinode): seq<byte>
    requires 0 < g.bsize
  {
    Head(Joined(g, img, DataBlocks(g, img, d)), d.size)
  }

  // --- per-inode invariant ---------------------------------------------------

  /** Fragments in a list of allocations. */
  ghost function FragSum(g: Geometry, sizes: seq<nat>): nat
    requires 0 < g.fsize
  {
    if sizes == [] then 0 else FragSum(g, sizes[..|sizes| - 1]) + Quot(sizes[|sizes| - 1], g.fsize)
  }

  /** Sectors `di_blocks` must record for the given data and pointer allocations. */
  ghost function SectorCount(g: Geometry, sizes: seq<nat>, pointers: nat): nat
    requires 0 < g.fsize
  {
    Mul(FragSum(g, sizes) + Mul(pointers, g.frag), g.nspf)
  }

  /** Each data block is claimed with its allocation's fragments, each pointer block whole. */
  ghost predicate Claimed(g: Geometry, own: map<nat, Claim>, ino: nat, data: seq<nat>, sizes: seq<nat>, ptrs: seq<nat>)
    requires 0 < g.fsize
  {
    && |data| == |sizes| && NoDup(data + ptrs)
    && (forall i | 0 <= i < |data| :: data[i] in own && own[data[i]] == Claim(ino, Quot(sizes[i], g.fsize)))
    && (forall p | p in ptrs :: p in own && own[p] == Claim(ino, g.frag))
  }

  /** Pointer blocks a file of `k` blocks needs: none for the direct ones, then level by level. */
  ghost function PointerCount(n: nat, k: nat): nat {
    var a := if k > NDADDR then k - NDADDR else 0;
    var b := a - Min(a, Reach(n, 1));
    var c := b - Min(b, Reach(n, 2));
    TreeCount(n, 1, Min(a, Reach(n, 1))) + TreeCount(n, 2, Min(b, Reach(n, 2))) + TreeCount(n, 3, Min(c, Reach(n, 3)))
  }

  /** The sectors a file of `size` bytes occupies, pointer blocks included. */
  ghost function Sectors(g: Geometry, size: nat): nat
    requires 0 < g.bsize && 0 < g.fsize
  {
    SectorCount(g, AllocSizes(g, size), PointerCount(g.nindir, Need(g, size)))
  }

  ghost predicate InodeOk(v: Vol, n: nat)
    requires 0 < v.g.bsize && 0 < v.g.fsize && n < |v.inodes|
  {
    var d := v.inodes[n];
    var data, ptrs := DataBlocks(v.g, v.img, d), PtrBlocks(v.g, v.img, d);
    && Mapped(v.g, v.img, d)
    && Claimed(v.g, v.own, n, data, AllocSizes(v.g, d.size), ptrs)
    && |ptrs| == PointerCount(v.g.nindir, Need(v.g, d.size))
    && d.blocks == SectorCount(v.g, AllocSizes(v.g, d.size), |ptrs|)
  }

  /** Every claim belongs to a live inode that reaches it. */
  ghost predicate Attached(v: Vol, live: set<nat>)
    requires 0 < v.g.bsize
  {
    forall b | b in v.own ::
      && v.own[b].ino in live && v.own[b].ino < |v.inodes|
      && b in Footprint(v, v.own[b].ino)
  }

  ghost function Footprint(v: Vol, n: nat): seq<nat>
    requires 0 < v.g.bsize && n < |v.inodes|
  {
    DataBlocks(v.g, v.img, v.inodes[n]) + PtrBlocks(v.g, v.img, v.inodes[n])
  }

  /** The live inodes account for exactly the claimed blocks. */
  ghost predicate FilesOk(v: Vol, live: set<nat>) {
    && 0 < v.g.bsize && 0 < v.g.fsize
    && (forall n | n in live :: n < |v.inodes| && InodeOk(v, n))
    && Attached(v, live)
  }

  /** The recorded sector count is a function of the size alone, however the file came about. */
  lemma OkSectors(v: Vol, live: set<nat>, n: nat)
    requires FilesOk(v, live) && n in live
    ensures n < |v.inodes| && v.inodes[n].blocks == Sectors(v.g, v.inodes[n].size)
  {
    hide DataBlocks, PtrBlocks, Claimed, SectorCount, AllocSizes, PointerCount;
    assert InodeOk(v, n);
  }

  // --- frames ----------------------------------------------------------------

  lemma {:induction false} JoinedFrame(g: Geometry, img: seq<byte>, img': seq<byte>, bs: seq<nat>)
    requires SameAt(g, img, img', bs)
    ensures Joined(g, img', bs) == Joined(g, img, bs)
    decreases |bs|
  {
    if bs != [] { JoinedFrame(g, img, img', bs[..|bs| - 1]); }
  }

  /** The walks and the contents of an inode depend only on the bytes of its own blocks. */
  lemma ContentsFrame(g: Geometry, img: seq<byte>, img': seq<byte>, d: Dinode)
    requires 0 < g.bsize
    requires SameAt(g, img, img', PtrBlocks(g, img, d))
    ensures DataBlocks(g, img', d) == DataBlocks(g, img, d) && PtrBlocks(g, img', d) == PtrBlocks(g, img, d)
    ensures SameAt(g, img, img', DataBlocks(g, img, d)) ==> Contents(g, img', d) == Contents(g, img, d)
    ensures Mapped(g, img, d) ==> Mapped(g, img', d)
  {
    hide Leaves, Inner, Region, Joined, Mapped, BlockOf;
    MappedFrame(g, img, img', d);
    TreeFrame(g, img, img', d.ib1, 1);
    TreeFrame(g, img, img', d.ib2, 2);
    TreeFrame(g, img, img', d.ib3, 3);
    if SameAt(g, img, img', DataBlocks(g, img, d)) {
      JoinedFrame(g, img, img', DataBlocks(g, img, d));
    }
  }

  lemma MappedFrame(g: Geometry, img: seq<byte>, img': seq<byte>, d: Dinode)
    requires SameAt(g, img, img', PtrBlocks(g, img, d))
    ensures |d.direct| == NDADDR ==> forall k: nat :: BlockOf(g, img', d, k) == BlockOf(g, img, d, k)
    ensures 0 < g.bsize && Mapped(g, img, d) && DataBlocks(g, img', d) == DataBlocks(g, img, d) ==> Mapped(g, img', d)
  {
    hide DataBlocks, Inner, Region, EntryOf, Reach;
    var single, double := NDADDR + Reach(g.nindir, 1), NDADDR + Reach(g.nindir, 1) + Reach(g.nindir, 2);
    if |d.direct| == NDADDR {
      forall k: nat ensures BlockOf(g, img', d, k) == BlockOf(g, img, d, k) {
        if NDADDR <= k { EntryFrame(g, img, img', d.ib1, 1, k - NDADDR); }
        if single <= k { EntryFrame(g, img, img', d.ib2, 2, k - single); }
        if double <= k { EntryFrame(g, img, img', d.ib3, 3, k - double); }
      }
    }
  }

  /** What happens to other inodes' blocks does not concern inode `m`. */
  ghost predicate Untouched(v: Vol, w: Vol, m: nat) {
    && w.g == v.g && |w.inodes| == |v.inodes| && m < |v.inodes| && w.inodes[m] == v.inodes[m]
    && forall b | b in v.own && v.own[b].ino == m ::
         b in w.own && w.own[b] == v.own[b] && Region(v.g, w.img, b) == Region(v.g, v.img, b)
  }

  lemma UntouchedInode(v: Vol, w: Vol, m: nat)
    requires 0 < v.g.bsize && 0 < v.g.fsize && Untouched(v, w, m) && InodeOk(v, m)
    ensures InodeOk(w, m) && Footprint(w, m) == Footprint(v, m)
    ensures Contents(w.g, w.img, w.inodes[m]) == Contents(v.g, v.img, v.inodes[m])
  {
    hide DataBlocks, PtrBlocks, Region, AllocSizes, SectorCount, Contents, NoDup, PointerCount, Need, Mapped;
    ContentsFrame(v.g, v.img, w.img, v.inodes[m]);
  }
}
