/** Replacing and extending the contents of an inode. */
module Write {
  import opened Arith
  import opened Geometry
  import opened Codec
  import opened VolumeState
  import opened Alloc
  import opened Pointers
  import opened Inodes
  import opened Reader
  import opened Bounds

  // --- lists of allocations --------------------------------------------------

  /** Block `i` of `bs` is claimed by `ino` with the fragments of `sizes[i]`. */
  ghost predicate Holds(g: Geometry, own: map<nat, Claim>, ino: nat, bs: seq<nat>, sizes: seq<nat>)
    requires 0 < g.fsize
  {
    |bs| == |sizes| && forall i | 0 <= i < |bs| :: bs[i] in own && own[bs[i]] == Claim(ino, Quot(sizes[i], g.fsize))
  }

  ghost predicate GoodSizes(g: Geometry, sizes: seq<nat>)
    requires 0 < g.fsize
  {
    forall i | 0 <= i < |sizes| :: GoodSize(g, sizes[i])
  }

  /** Frees the listed allocations, last first. */
  method FreeList(vol: Volume, ghost ino: nat, bs: seq<nat>, sizes: seq<nat>)
    requires BlocksOk(vol.View()) && 0 < vol.g.fsize
    requires NoDup(bs) && Holds(vol.g, vol.own, ino, bs, sizes) && GoodSizes(vol.g, sizes)
    modifies vol
    ensures BlocksOk(vol.View()) && InodeSideSame(old(vol.View()), vol.View())
    ensures vol.own == old(vol.own) - Elems(bs)
  {
    hide BlocksOk, InodeSideSame, GoodSize, ValidGeometry;
    ghost var u := vol.View();
    SideReflexive(u);
    var i := |bs|;
    assert bs[|bs|..] == [];
    while i > 0
      invariant 0 <= i <= |bs|
      invariant BlocksOk(vol.View()) && InodeSideSame(u, vol.View())
      invariant vol.own == u.own - Elems(bs[i..])
    {
      i := i - 1;
      ghost var v := vol.View();
      assert bs[i] !in bs[i + 1..];
      SizeFits(v, sizes[i]);
      vol.FreeAllocation(bs[i], sizes[i]);
      SideTransitive(u, v, vol.View());
      assert bs[i..] == [bs[i]] + bs[i + 1..];
      assert Elems(bs[i..]) == {bs[i]} + Elems(bs[i + 1..]);
    }
    assert bs[0..] == bs;
  }

  lemma SideReflexive(v: Vol)
    ensures InodeSideSame(v, v)
  {
  }

  lemma SizeFits(v: Vol, a: nat)
    requires BlocksOk(v) && 0 < v.g.fsize && GoodSize(v.g, a)
    ensures v.g.fsize <= a <= v.g.bsize
  {
    hide CgOk, OwnOk;
    var q := Quot(a, v.g.fsize);
    MulAdd(1, q - 1, v.g.fsize);
    MulAdd(q, v.g.frag - q, v.g.fsize);
  }

  /** New allocations `bs` of the given sizes for `ino`, on blocks nobody owned. */
  ghost predicate Extended(v: Vol, w: Vol, ino: nat, bs: seq<nat>, sizes: seq<nat>) {
    && ValidGeometry(v.g) && InodeSideSame(v, w) && NoDup(bs)
    && (forall i | 0 <= i < |bs| :: bs[i] !in v.own && GoodBlock(v.g, bs[i]))
    && w.own.Keys == v.own.Keys + Elems(bs)
    && (forall b | b in v.own :: w.own[b] == v.own[b])
    && Holds(v.g, w.own, ino, bs, sizes)
    && SameExcept(v.g, v.img, w.img, Elems(bs))
  }

  lemma ExtendedNothing(v: Vol, ino: nat)
    requires ValidGeometry(v.g)
    ensures Extended(v, v, ino, [], [])
  {
  }

  lemma ExtendedMore(u: Vol, v: Vol, w: Vol, ino: nat, bs: seq<nat>, sizes: seq<nat>, b: nat, a: nat)
    requires Extended(u, v, ino, bs, sizes) && Allocated(v, w, b, Claim(ino, Quot(a, v.g.fsize)))
    ensures Extended(u, w, ino, bs + [b], sizes + [a])
  {
    hide ValidGeometry, GoodBlock, SameExcept, InodeSideSame, Region;
    SideTransitive(u, v, w);
    SideGeometry(u, v);
    SameTransitive(u.g, u.img, v.img, w.img, Elems(bs), {b});
    assert Elems(bs + [b]) == Elems(bs) + {b};
  }

  /** Allocates one run per requested size. */
  method AllocateList(vol: Volume, ino: nat, sizes: seq<nat>) returns (r: Result<seq<nat>>)
    requires BlocksOk(vol.View()) && ino < |vol.inodes|
    modifies vol, vol.image
    ensures r.Ok? ==> BlocksOk(vol.View()) && Extended(old(vol.View()), vol.View(), ino, r.value, sizes)
    ensures r.Err? && 0 < vol.g.fsize && GoodSizes(vol.g, sizes) ==> NoSpace(vol.g, vol.own)
    ensures r.Err? ==> sizes != [] && (|sizes| == 1 ==> vol.own == old(vol.own))
  {
    hide BlocksOk, Extended, Allocated, ValidGeometry, OwnOk, GroupsOk, NoSpace, GoodSize;
    ghost var u := vol.View();
    BlocksShape(u);
    ExtendedNothing(u, ino);
    var bs: seq<nat> := [];
    for i := 0 to |sizes|
      invariant BlocksOk(vol.View()) && Extended(u, vol.View(), ino, bs, sizes[..i]) && |vol.inodes| == |u.inodes|
      invariant i == 0 ==> vol.own == u.own
    {
      ghost var v := vol.View();
      var b := vol.AllocateAllocation(ino, sizes[i]);
      if b.Err? {
        if 0 < v.g.fsize && GoodSizes(v.g, sizes) { SizeFits(v, sizes[i]); }
        return Err;
      }
      ExtendedMore(u, v, vol.View(), ino, bs, sizes[..i], b.value, sizes[i]);
      ExtendedSide(u, vol.View(), ino, bs + [b.value], sizes[..i] + [sizes[i]]);
      assert sizes[..i + 1] == sizes[..i] + [sizes[i]];
      bs := bs + [b.value];
    }
    assert sizes[..|sizes|] == sizes;
    return Ok(bs);
  }

  lemma ExtendedSide(u: Vol, w: Vol, ino: nat, bs: seq<nat>, sizes: seq<nat>)
    requires Extended(u, w, ino, bs, sizes)
    ensures w.g == u.g && w.inodes == u.inodes && |w.cgs| == |u.cgs| && |bs| == |sizes| && InodeSideSame(u, w)
  {
  }

  // --- inode pointer structure -----------------------------------------------

  ghost predicate Planted(g: Geometry, img: seq<byte>, root: nat, levels: nat, blocks: seq<nat>, ps: seq<nat>) {
    root < U32 && Leaves(g, img, root, levels) == blocks && Inner(g, img, root, levels) == ps && Dense(g, img, root, levels, blocks)
  }

  lemma PlantedKept(v: Vol, w: Vol, ino: nat, qs: seq<nat>, root: nat, levels: nat, blocks: seq<nat>, ps: seq<nat>)
    requires Grown(v, w, ino, qs) && BlocksOk(v)
    requires Planted(v.g, v.img, root, levels, blocks, ps) && forall p | p in ps :: p in v.own
    ensures Planted(w.g, w.img, root, levels, blocks, ps) && forall p | p in ps :: p in w.own
  {
    hide ValidGeometry, GoodBlock, Leaves, Inner, Region, CgOk, Dense;
    forall b | b in ps ensures Region(v.g, w.img, b) == Region(v.g, v.img, b) {
      assert b !in Elems(qs);
    }
    TreeFrame(v.g, v.img, w.img, root, levels);
    DenseFrame(v.g, v.img, w.img, root, levels, blocks);
  }

  /** Builds the tree of one indirect level over as many of `remaining` as it can address. */
  method BuildLevel(vol: Volume, ino: nat, levels: nat, remaining: seq<nat>)
    returns (r: Result<(nat, nat, seq<nat>)>, ghost ps: seq<nat>)
    requires BlocksOk(vol.View()) && ino < |vol.inodes| && 0 < levels && Numbers(remaining)
    modifies vol, vol.image
    ensures r.Ok? ==> BlocksOk(vol.View()) && Grown(old(vol.View()), vol.View(), ino, ps) && |ps| == r.value.1
    ensures r.Ok? ==> var take := Min(|remaining|, Reach(vol.g.nindir, levels));
              r.value.2 == remaining[take..] && Planted(vol.g, vol.image[..], r.value.0, levels, remaining[..take], ps)
              && forall p | p in ps :: p in vol.own
    ensures r.Ok? && remaining == [] ==> ps == []
    ensures r.Err? ==> remaining != [] && NoSpace(vol.g, vol.own)
    ensures r.Ok? ==> r.value.1 == TreeCount(vol.g.nindir, levels, Min(|remaining|, Reach(vol.g.nindir, levels)))
  {
    hide BlocksOk, Grown, TreeAt, Reach, TreeCount, NoSpace;
    ghost var u := vol.View();
    var take := Min(|remaining|, Reach(vol.g.nindir, levels));
    var built, qs := BuildTree(vol, ino, levels, remaining[..take]);
    if built.Err? { return Err, []; }
    GrownOwned(u, vol.View(), ino, qs);
    TreeIsPlanted(vol.g, vol.image[..], built.value.0, levels, remaining[..take], qs);
    return Ok((built.value.0, built.value.1, remaining[take..])), qs;
  }

  lemma TreeIsPlanted(g: Geometry, img: seq<byte>, root: nat, levels: nat, blocks: seq<nat>, ps: seq<nat>)
    requires if blocks == [] then root == 0 && ps == [] else TreeAt(g, img, root, levels, blocks, ps)
    ensures Planted(g, img, root, levels, blocks, ps)
  {
  }

  /** The inode's pointers list exactly `bs`, through the pointer blocks `ps`. */
  ghost predicate Structured(g: Geometry, img: seq<byte>, d: Dinode, bs: seq<nat>, ps: seq<nat>) {
    && |d.direct| == NDADDR && Reachable(g, img, d) == bs && PtrBlocks(g, img, d) == ps
    && forall k | 0 <= k < |bs| :: BlockOf(g, img, d, k) == bs[k]
  }

  /** The twelve direct slots: the first blocks, zero past the end. */
  function DirectSlots(bs: seq<nat>): (r: seq<nat>)
    ensures |r| == NDADDR && forall i | 0 <= i < NDADDR :: r[i] == if i < |bs| then bs[i] else 0
  {
    seq(NDADDR, i requires 0 <= i < NDADDR => if i < |bs| then bs[i] else 0)
  }

  lemma {:induction false} NonZeroPadded(s: seq<nat>, bs: seq<nat>)
    requires Numbers(bs) && |bs| <= |s| && forall i | 0 <= i < |s| :: s[i] == if i < |bs| then bs[i] else 0
    ensures NonZero(s) == bs
    decreases |s|
  {
    if s != [] {
      var n := |s| - 1;
      if |bs| == |s| {
        NonZeroPadded(s[..n], bs[..n]);
        assert bs == bs[..n] + [bs[n]];
      } else {
        NonZeroPadded(s[..n], bs);
      }
    }
  }

  /** `build_inode_pointer_structure`: lays `bs` out behind inode `ino`. */
  method BuildStructure(vol: Volume, ino: nat, bs: seq<nat>) returns (r: Result<nat>, ghost ps: seq<nat>)
    requires BlocksOk(vol.View()) && ino < |vol.inodes| && Numbers(bs) && |bs| <= Capacity(vol.g.nindir)
    modifies vol, vol.image
    ensures r.Ok? ==> |vol.inodes| == old(|vol.inodes|)
    ensures r.Ok? ==> BlocksOk(vol.View()) && Grown(old(vol.View()), vol.View().(inodes := old(vol.inodes)), ino, ps) && |ps| == r.value
    ensures r.Ok? ==> Structured(vol.g, vol.image[..], vol.inodes[ino], bs, ps) && (bs == [] ==> ps == [])
    ensures r.Ok? ==> r.value == PointerCount(vol.g.nindir, |bs|)
    ensures r.Err? ==> |bs| > NDADDR && NoSpace(vol.g, vol.own)
    ensures r.Ok? ==> vol.inodes == old(vol.inodes)[ino := old(vol.inodes[ino]).(
                        direct := vol.inodes[ino].direct, ib1 := vol.inodes[ino].ib1, ib2 := vol.inodes[ino].ib2, ib3 := vol.inodes[ino].ib3)]
  {
    hide BlocksOk, Grown, Planted, Reach, Structured, TreeCount, PointerCount, Capacity, ValidGeometry, NoSpace;
    ghost var u := vol.View();
    var rest := if |bs| > NDADDR then bs[NDADDR..] else [];
    ghost var n := vol.g.nindir;
    var a, ps1 := BuildLevel(vol, ino, 1, rest);
    if a.Err? { return Err, []; }
    ghost var v1 := vol.View();
    GrownOwned(u, v1, ino, ps1);
    var b, ps2 := BuildLevel(vol, ino, 2, a.value.2);
    if b.Err? { return Err, []; }
    ghost var v2 := vol.View();
    GrownOwned(v1, v2, ino, ps2);
    PlantedKept(v1, v2, ino, ps2, a.value.0, 1, rest[..Min(|rest|, Reach(n, 1))], ps1);
    var c, ps3 := BuildLevel(vol, ino, 3, b.value.2);
    if c.Err? { return Err, []; }
    ghost var v3 := vol.View();
    GrownOwned(v2, v3, ino, ps3);
    PlantedKept(v2, v3, ino, ps3, a.value.0, 1, rest[..Min(|rest|, Reach(n, 1))], ps1);
    PlantedKept(v2, v3, ino, ps3, b.value.0, 2, a.value.2[..Min(|a.value.2|, Reach(n, 2))], ps2);
    var d := vol.inodes[ino].(direct := DirectSlots(bs), ib1 := a.value.0, ib2 := b.value.0, ib3 := c.value.0);
    ThreeLevels(vol.g, vol.image[..], d, bs, rest, a.value.2, b.value.2, ps1, ps2, ps3);
    GrownMore(u, v1, v2, ino, ps1, ps2);
    GrownMore(u, v2, v3, ino, ps1 + ps2, ps3);
    vol.inodes := vol.inodes[ino := d];
    InodesIrrelevant(v3, vol.View());
    LevelCounts(n, |bs|, |rest|, |a.value.2|, |b.value.2|);
    return Ok(a.value.1 + b.value.1 + c.value.1), ps1 + ps2 + ps3;
  }

  lemma LevelCounts(n: nat, k: nat, a: nat, b: nat, c: nat)
    requires a == (if k > NDADDR then k - NDADDR else 0) && b == a - Min(a, Reach(n, 1)) && c == b - Min(b, Reach(n, 2))
    ensures PointerCount(n, k) ==
              TreeCount(n, 1, Min(a, Reach(n, 1))) + TreeCount(n, 2, Min(b, Reach(n, 2))) + TreeCount(n, 3, Min(c, Reach(n, 3)))
  {
    hide TreeCount, Reach;
  }

  /** The block side of the invariant says nothing about inode records. */
  lemma InodesIrrelevant(v: Vol, w: Vol)
    requires BlocksOk(v) && w == v.(inodes := w.inodes) && |w.inodes| == |v.inodes|
    ensures BlocksOk(w)
  {
  }

  /** Direct slots and the three trees together list every block, when they can address it. */
  lemma ThreeLevels(g: Geometry, img: seq<byte>, d: Dinode, bs: seq<nat>, rest: seq<nat>, rest1: seq<nat>, rest2: seq<nat>,
                    ps1: seq<nat>, ps2: seq<nat>, ps3: seq<nat>)
    requires Numbers(bs) && |bs| <= Capacity(g.nindir) && d.direct == DirectSlots(bs)
    requires rest == if |bs| > NDADDR then bs[NDADDR..] else []
    requires rest1 == rest[Min(|rest|, Reach(g.nindir, 1))..] && rest2 == rest1[Min(|rest1|, Reach(g.nindir, 2))..]
    requires Planted(g, img, d.ib1, 1, rest[..Min(|rest|, Reach(g.nindir, 1))], ps1)
    requires Planted(g, img, d.ib2, 2, rest1[..Min(|rest1|, Reach(g.nindir, 2))], ps2)
    requires Planted(g, img, d.ib3, 3, rest2[..Min(|rest2|, Reach(g.nindir, 3))], ps3)
    ensures Structured(g, img, d, bs, ps1 + ps2 + ps3)
  {
    hide Structured, Planted, Reach, NonZero, DirectSlots, Capacity, Numbers;
    var n := g.nindir;
    var k0, k1, k2 := Min(|bs|, NDADDR), Min(|rest|, Reach(n, 1)), Min(|rest1|, Reach(n, 2));
    LevelSizes(n, |bs|, |rest|, |rest1|, |rest2|);
    ghost var b0, b1, b2 := bs[..k0], rest[..k1], rest1[..k2];
    DirectPart(d.direct, bs, k0);
    Whole(rest2, Min(|rest2|, Reach(n, 3)));
    Regroup(bs, k0, rest, k1, rest1, k2, rest2);
    PartSizes(bs, k0, rest, k1, rest1, k2, rest2);
    Assemble(g, img, d, b0, b1, b2, rest2, ps1, ps2, ps3);
  }

  lemma Whole(s: seq<nat>, k: nat)
    requires k == |s|
    ensures s[..k] == s
  {
  }

  lemma PartSizes(bs: seq<nat>, k0: nat, rest: seq<nat>, k1: nat, rest1: seq<nat>, k2: nat, rest2: seq<nat>)
    requires k0 <= |bs| && k1 <= |rest| && k2 <= |rest1|
    ensures |bs[..k0]| == k0 && |rest[..k1]| == k1 && |rest1[..k2]| == k2
    ensures (rest[..k1] != [] ==> 0 < |rest|) && (rest1[..k2] != [] ==> 0 < |rest1|) && (rest2 != [] ==> 0 < |rest2|)
  {
  }

  lemma DirectPart(direct: seq<nat>, bs: seq<nat>, k: nat)
    requires Numbers(bs) && direct == DirectSlots(bs) && k == Min(|bs|, NDADDR)
    ensures NonZero(direct) == bs[..k] && forall i | 0 <= i < k :: direct[i] == bs[..k][i]
  {
    hide NonZero, DirectSlots;
    NonZeroPadded(direct, bs[..k]);
  }

  /** Each level is full before the next begins, and the last holds the rest. */
  lemma LevelSizes(n: nat, k: nat, a: nat, b: nat, c: nat)
    requires k <= Capacity(n) && a == (if k > NDADDR then k - NDADDR else 0)
    requires b == a - Min(a, Reach(n, 1)) && c == b - Min(b, Reach(n, 2))
    ensures c <= Reach(n, 3) && (b > 0 ==> a > Reach(n, 1)) && (c > 0 ==> b > Reach(n, 2))
  {
    hide Reach;
  }

  lemma Assemble(g: Geometry, img: seq<byte>, d: Dinode, b0: seq<nat>, b1: seq<nat>, b2: seq<nat>, b3: seq<nat>,
                 ps1: seq<nat>, ps2: seq<nat>, ps3: seq<nat>)
    requires |d.direct| == NDADDR && NonZero(d.direct) == b0
    requires Planted(g, img, d.ib1, 1, b1, ps1) && Planted(g, img, d.ib2, 2, b2, ps2) && Planted(g, img, d.ib3, 3, b3, ps3)
    requires |b0| <= NDADDR && (b1 != [] ==> |b0| == NDADDR) && forall k | 0 <= k < |b0| :: d.direct[k] == b0[k]
    requires |b1| <= Reach(g.nindir, 1) && |b2| <= Reach(g.nindir, 2)
    requires b2 != [] ==> |b0| == NDADDR && |b1| == Reach(g.nindir, 1)
    requires b3 != [] ==> |b0| == NDADDR && |b1| == Reach(g.nindir, 1) && |b2| == Reach(g.nindir, 2)
    ensures Structured(g, img, d, b0 + b1 + b2 + b3, ps1 + ps2 + ps3)
  {
    hide Leaves, Inner, NonZero, Reach, EntryOf;
    var bs := b0 + b1 + b2 + b3;
    forall k | 0 <= k < |bs| ensures BlockOf(g, img, d, k) == bs[k] {
      if |b0| <= k < |b0| + |b1| { assert EntryOf(g, img, d.ib1, 1, k - |b0|) == b1[k - |b0|]; }
      if |b0| + |b1| <= k < |b0| + |b1| + |b2| { assert EntryOf(g, img, d.ib2, 2, k - |b0| - |b1|) == b2[k - |b0| - |b1|]; }
      if |b0| + |b1| + |b2| <= k {
        assert EntryOf(g, img, d.ib3, 3, k - |b0| - |b1| - |b2|) == b3[k - |b0| - |b1| - |b2|];
      }
    }
  }

  lemma Regroup(bs: seq<nat>, k0: nat, rest: seq<nat>, k1: nat, rest1: seq<nat>, k2: nat, rest2: seq<nat>)
    requires k0 <= |bs| && rest == bs[k0..] && k1 <= |rest| && rest1 == rest[k1..] && k2 <= |rest1| && rest2 == rest1[k2..]
    ensures bs[..k0] + rest[..k1] + rest1[..k2] + rest2 == bs
  {
  }

  // --- bytes -----------------------------------------------------------------

  /** Allocation `i` is large enough for its share of the bytes. */
  lemma {:induction false} SizesCover(g: Geometry, size: nat, whole: bool, i: nat)
    requires ValidGeometry(g) && 0 < g.bsize && i < |Sizes(g, size, whole)|
    ensures Mul(i, g.bsize) < size
    ensures Min(g.bsize, size - Mul(i, g.bsize)) <= Sizes(g, size, whole)[i] <= g.bsize
    decreases size
  {
    if size < g.bsize {
      FragRoundUpGood(g, size);
    } else if i > 0 {
      SizesCover(g, size - g.bsize, whole, i - 1);
      MulSucc(i - 1, g.bsize);
    }
  }

  /** Block `b` starts with the `j`-th block-sized chunk of `data`. */
  ghost predicate HoldsChunk(g: Geometry, img: seq<byte>, b: nat, data: seq<byte>, j: nat) {
    var lo := Mul(j, g.bsize);
    lo <= |data| && |Region(g, img, b)| == g.bsize
    && Region(g, img, b)[..Min(g.bsize, |data| - lo)] == data[lo..Min(lo + g.bsize, |data|)]
  }

  lemma {:induction false} ChunksJoin(g: Geometry, img: seq<byte>, bs: seq<nat>, data: seq<byte>)
    requires forall j | 0 <= j < |bs| :: HoldsChunk(g, img, bs[j], data, j)
    ensures |Joined(g, img, bs)| == Mul(|bs|, g.bsize)
    ensures Head(Joined(g, img, bs), |data|) == Head(data, Mul(|bs|, g.bsize))
    decreases |bs|
  {
    hide Region, Mul;
    MulZero(g.bsize);
    if bs != [] {
      var n := |bs| - 1;
      ChunksJoin(g, img, bs[..n], data);
      MulSucc(n, g.bsize);
      assert HoldsChunk(g, img, bs[n], data, n);
      AppendChunk(Joined(g, img, bs[..n]), Region(g, img, bs[n]), data);
    }
  }

  lemma AppendChunk(before: seq<byte>, chunk: seq<byte>, data: seq<byte>)
    requires |before| <= |data| && before == data[..|before|]
    requires chunk[..Min(|chunk|, |data| - |before|)] == data[|before|..Min(|before| + |chunk|, |data|)]
    ensures Head(before + chunk, |data|) == Head(data, |before| + |chunk|)
  {
  }

  /** Copies `data` into its blocks, each padded with zeros to its allocation. */
  method WriteChunks(vol: Volume, bs: seq<nat>, sizes: seq<nat>, data: seq<byte>)
    requires ValidGeometry(vol.g) && 0 < vol.g.bsize && vol.image.Length == Mul(vol.g.dsize, vol.g.fsize)
    requires NoDup(bs) && (forall i | 0 <= i < |bs| :: GoodBlock(vol.g, bs[i])) && |bs| == |sizes|
    requires sizes == AllocSizes(vol.g, |data|)
    modifies vol.image
    ensures SameExcept(vol.g, old(vol.image[..]), vol.image[..], Elems(bs))
    ensures forall j | 0 <= j < |bs| :: HoldsChunk(vol.g, vol.image[..], bs[j], data, j)
  {
    hide ValidGeometry, GoodBlock, Sizes, Region, HoldsChunk;
    for i := 0 to |bs|
      invariant SameExcept(vol.g, old(vol.image[..]), vol.image[..], Elems(bs))
      invariant forall j | 0 <= j < i :: HoldsChunk(vol.g, vol.image[..], bs[j], data, j)
    {
      ghost var img := vol.image[..];
      SizesCover(vol.g, |data|, Need(vol.g, |data|) > NDADDR, i);
      var lo := Mul(i, vol.g.bsize);
      var chunk := data[lo..Min(lo + vol.g.bsize, |data|)];
      vol.CopyIn(bs[i], 0, chunk + Zeros(sizes[i] - |chunk|));
      ChunkHeld(vol.g, img, vol.image[..], bs[i], data, i, sizes[i]);
      forall j | 0 <= j < i ensures HoldsChunk(vol.g, vol.image[..], bs[j], data, j) {
        ChunkFrame(vol.g, img, vol.image[..], bs[j], data, j);
      }
      SameTransitive(vol.g, old(vol.image[..]), img, vol.image[..], Elems(bs), {bs[i]});
      assert Elems(bs) + {bs[i]} == Elems(bs);
    }
  }

  lemma ChunkHeld(g: Geometry, img: seq<byte>, img': seq<byte>, b: nat, data: seq<byte>, i: nat, a: nat)
    requires var lo := Mul(i, g.bsize);
      lo <= |data| && Min(g.bsize, |data| - lo) <= a <= g.bsize && |Region(g, img, b)| == g.bsize
      && var chunk := data[lo..Min(lo + g.bsize, |data|)];
         Region(g, img', b) == Splice(Region(g, img, b), 0, chunk + Zeros(a - |chunk|))
    ensures HoldsChunk(g, img', b, data, i)
  {
    hide Region;
  }

  lemma ChunkFrame(g: Geometry, img: seq<byte>, img': seq<byte>, b: nat, data: seq<byte>, j: nat)
    requires Region(g, img', b) == Region(g, img, b) && HoldsChunk(g, img, b, data, j)
    ensures HoldsChunk(g, img', b, data, j)
  {
  }

  // --- rewriting one inode ---------------------------------------------------

  /** Only inode `ino` and blocks it owns, before or after, may differ. */
  ghost predicate Rewritten(v: Vol, w: Vol, ino: nat) {
    && InodeSideSame(v, w.(inodes := v.inodes)) && |w.inodes| == |v.inodes|
    && (forall m | 0 <= m < |v.inodes| && m != ino :: w.inodes[m] == v.inodes[m])
    && (forall b | b in v.own && v.own[b].ino != ino ::
          b in w.own && w.own[b] == v.own[b] && Region(v.g, w.img, b) == Region(v.g, v.img, b))
    && (forall b | b in w.own && w.own[b].ino != ino :: b in v.own && v.own[b].ino != ino)
  }

  lemma RewrittenTransitive(u: Vol, v: Vol, w: Vol, ino: nat)
    requires Rewritten(u, v, ino) && Rewritten(v, w, ino)
    ensures Rewritten(u, w, ino)
  {
    hide Region;
  }

  lemma RewrittenByFree(v: Vol, w: Vol, ino: nat, bs: seq<nat>)
    requires InodeSideSame(v, w) && w.img == v.img && w.own == v.own - Elems(bs)
    requires forall i | 0 <= i < |bs| :: bs[i] in v.own && v.own[bs[i]].ino == ino
    ensures Rewritten(v, w, ino)
  {
    hide Region;
  }

  lemma RewrittenByExtend(v: Vol, w: Vol, ino: nat, bs: seq<nat>, sizes: seq<nat>)
    requires BlocksOk(v) && Extended(v, w, ino, bs, sizes)
    ensures Rewritten(v, w, ino)
  {
    hide Region, ValidGeometry, GoodBlock, CgOk, InodeSideSame;
    SideGeometry(v, w);
    assert w.(inodes := v.inodes) == w;
  }

  lemma RewrittenByGrow(v: Vol, w: Vol, ino: nat, ps: seq<nat>)
    requires BlocksOk(v) && |w.inodes| == |v.inodes| && Grown(v, w.(inodes := v.inodes), ino, ps)
    requires forall m | 0 <= m < |v.inodes| && m != ino :: w.inodes[m] == v.inodes[m]
    ensures Rewritten(v, w, ino)
  {
    hide Region, ValidGeometry, GoodBlock, CgOk, InodeSideSame;
  }

  lemma RewrittenByCopy(v: Vol, w: Vol, ino: nat, bs: seq<nat>)
    requires BlocksOk(v) && w == v.(img := w.img) && SameExcept(v.g, v.img, w.img, Elems(bs))
    requires forall i | 0 <= i < |bs| :: bs[i] in v.own && v.own[bs[i]].ino == ino
    ensures Rewritten(v, w, ino)
  {
    hide Region, ValidGeometry, GoodBlock, CgOk;
  }

  lemma RewrittenByRecord(v: Vol, ino: nat, d: Dinode)
    requires ino < |v.inodes|
    ensures Rewritten(v, v.(inodes := v.inodes[ino := d]), ino)
  {
    hide Region;
  }

  lemma RewrittenOthers(v: Vol, w: Vol, ino: nat, m: nat)
    requires Rewritten(v, w, ino) && m < |v.inodes| && m != ino
    ensures Untouched(v, w, m)
  {
    hide Region;
  }

  /** If `ino` is right afterwards and owns only what it reaches, every live inode is right. */
  lemma RewrittenFiles(v: Vol, w: Vol, live: set<nat>, ino: nat)
    requires FilesOk(v, live) && ino in live && Rewritten(v, w, ino) && InodeOk(w, ino)
    requires forall b | b in w.own && w.own[b].ino == ino :: b in Footprint(w, ino)
    ensures FilesOk(w, live)
    ensures forall m | m in live && m != ino ::
              w.inodes[m] == v.inodes[m] && Contents(w.g, w.img, w.inodes[m]) == Contents(v.g, v.img, v.inodes[m])
  {
    hide Region, InodeOk, Footprint, Contents, InodeSideSame;
    assert w.g == v.g by { SideGeometry(v, w.(inodes := v.inodes)); }
    forall m | m in live && m != ino
      ensures InodeOk(w, m) && Footprint(w, m) == Footprint(v, m)
      ensures w.inodes[m] == v.inodes[m] && Contents(w.g, w.img, w.inodes[m]) == Contents(v.g, v.img, v.inodes[m])
    {
      RewrittenOthers(v, w, ino, m);
      UntouchedInode(v, w, m);
    }
  }

  /** Frees everything inode `ino` owns: pointer blocks, then data blocks, last first. */
  method FreeContents(vol: Volume, ino: nat, ghost live: set<nat>)
    requires BlocksOk(vol.View()) && FilesOk(vol.View(), live) && ino in live
    modifies vol
    ensures BlocksOk(vol.View()) && Rewritten(old(vol.View()), vol.View(), ino) && vol.inodes == old(vol.inodes)
    ensures forall b | b in vol.own :: vol.own[b].ino != ino
  {
    hide BlocksOk, Rewritten, Region, Readable, DataBlocks, PtrBlocks, Sizes, SectorCount, ValidGeometry;
    ghost var u := vol.View();
    OkReadable(u, ino);
    ReadableShape(vol.g, vol.image[..], vol.inodes[ino]);
    var inode := vol.inodes[ino];
    var data := InodeDataBlocks(vol, inode);
    var sizes := AllocationByteSizes(vol.g, inode.size);
    var ptrs := InodePointerBlocks(vol, inode);
    var whole := seq(|ptrs|, _ => vol.g.bsize);
    ReadyToFree(u, ino);
    FreeList(vol, ino, ptrs, whole);
    ghost var v := vol.View();
    RewrittenByFree(u, v, ino, ptrs);
    NotIn(data, ptrs);
    FreeList(vol, ino, data, sizes);
    RewrittenByFree(v, vol.View(), ino, data);
    RewrittenTransitive(u, v, vol.View(), ino);
    forall b | b in vol.own ensures vol.own[b].ino != ino {
      assert b in u.own && b !in data && b !in ptrs;
    }
    SideGeometry(u, v);
    SideGeometry(v, vol.View());
  }

  lemma ReadableShape(g: Geometry, img: seq<byte>, d: Dinode)
    requires Readable(g, img, d)
    ensures 0 < g.bsize && 4 * g.nindir <= g.bsize && Inside(g, img, PtrBlocks(g, img, d)) && Inside(g, img, DataBlocks(g, img, d))
    ensures |DataBlocks(g, img, d)| == Need(g, d.size) && Walks(g, img, d)
  {
  }

  lemma NotIn(a: seq<nat>, b: seq<nat>)
    requires NoDup(a + b)
    ensures NoDup(a) && NoDup(b) && forall i | 0 <= i < |a| :: a[i] !in Elems(b)
  {
    forall i, j | 0 <= i < |a| && 0 <= j < |b| ensures a[i] != b[j] {
      assert (a + b)[i] == a[i] && (a + b)[|a| + j] == b[j];
    }
    forall i, j | 0 <= i < j < |b| ensures b[i] != b[j] {
      assert (a + b)[|a| + i] == b[i] && (a + b)[|a| + j] == b[j];
    }
    forall i, j | 0 <= i < j < |a| ensures a[i] != a[j] {
      assert (a + b)[i] == a[i] && (a + b)[j] == a[j];
    }
  }

  lemma ReadyToFree(v: Vol, ino: nat)
    requires BlocksOk(v) && 0 < v.g.bsize && 0 < v.g.fsize && ino < |v.inodes| && InodeOk(v, ino)
    ensures var data, ptrs := DataBlocks(v.g, v.img, v.inodes[ino]), PtrBlocks(v.g, v.img, v.inodes[ino]);
      && NoDup(data) && NoDup(ptrs)
      && Holds(v.g, v.own, ino, data, AllocSizes(v.g, v.inodes[ino].size)) && GoodSizes(v.g, AllocSizes(v.g, v.inodes[ino].size))
      && Holds(v.g, v.own, ino, ptrs, seq(|ptrs|, _ => v.g.bsize)) && GoodSizes(v.g, seq(|ptrs|, _ => v.g.bsize))
  {
    hide BlocksOk, DataBlocks, PtrBlocks, Sizes, SectorCount, NoDup, GoodSize;
    BlocksShape(v);
    NotIn(DataBlocks(v.g, v.img, v.inodes[ino]), PtrBlocks(v.g, v.img, v.inodes[ino]));
    SizesShape(v.g, v.inodes[ino].size, Need(v.g, v.inodes[ino].size) > NDADDR);
    WholeGood(v.g);
  }

  /** Allocates for `data` and copies it in. */
  method PlaceContents(vol: Volume, ino: nat, data: seq<byte>, sizes: seq<nat>) returns (r: Result<seq<nat>>)
    requires BlocksOk(vol.View()) && ino < |vol.inodes| && 0 < vol.g.bsize && 0 < vol.g.fsize && sizes == AllocSizes(vol.g, |data|)
    modifies vol, vol.image
    ensures r.Ok? ==> BlocksOk(vol.View()) && Rewritten(old(vol.View()), vol.View(), ino) && vol.inodes == old(vol.inodes)
    ensures r.Ok? ==> NoDup(r.value) && Holds(vol.g, vol.own, ino, r.value, sizes) && vol.own.Keys == old(vol.own.Keys) + Elems(r.value)
    ensures r.Ok? ==> forall j | 0 <= j < |r.value| :: HoldsChunk(vol.g, vol.image[..], r.value[j], data, j)
    ensures r.Err? ==> data != [] && NoSpace(vol.g, vol.own) && (|data| <= vol.g.bsize ==> vol.own == old(vol.own))
  {
    hide NoSpace, GoodSize, BlocksOk, Rewritten, Region, Sizes, ValidGeometry, InodeSideSame, HoldsChunk, GoodBlock, OwnOk, GroupsOk;
    ghost var u := vol.View();
    BlocksShape(u);
    PlacedSizes(vol.g, |data|);
    r := AllocateList(vol, ino, sizes);
    if r.Err? { return; }
    ghost var v := vol.View();
    BlocksShape(v);
    RewrittenByExtend(u, v, ino, r.value, sizes);
    ExtendedSide(u, v, ino, r.value, sizes);
    WriteChunks(vol, r.value, sizes, data);
    RewrittenByCopy(v, vol.View(), ino, r.value);
    RewrittenTransitive(u, v, vol.View(), ino);
    ImageIrrelevant(v, vol.View());
  }

  lemma PlacedSizes(g: Geometry, size: nat)
    requires ValidGeometry(g) && 0 < g.bsize && 0 < g.fsize
    ensures GoodSizes(g, AllocSizes(g, size)) && (size <= g.bsize ==> |AllocSizes(g, size)| <= 1) && (size == 0 ==> AllocSizes(g, size) == [])
  {
    hide GoodSize, Need, ValidGeometry;
    SizesShape(g, size, Need(g, size) > NDADDR);
  }

  /** `d` differs from `c` only in where and how much it stores. */
  ghost predicate SameIdentity(c: Dinode, d: Dinode) {
    d.kind == c.kind && d.nlink == c.nlink
  }

  /** `set_inode_contents`: frees everything, allocates afresh, writes, rebuilds the pointers. */
  method SetInodeContents(vol: Volume, ino: nat, data: seq<byte>, ghost live: set<nat>) returns (r: Result<()>)
    requires BlocksOk(vol.View()) && FilesOk(vol.View(), live) && ino in live
    modifies vol, vol.image
    ensures r.Ok? ==> BlocksOk(vol.View()) && FilesOk(vol.View(), live) && Rewritten(old(vol.View()), vol.View(), ino)
    ensures r.Ok? ==> SameIdentity(old(vol.inodes[ino]), vol.inodes[ino]) && vol.inodes[ino].size == |data|
    ensures r.Ok? ==> 0 < vol.g.bsize && Mapped(vol.g, vol.image[..], vol.inodes[ino])
    ensures r.Ok? ==> Contents(vol.g, vol.image[..], vol.inodes[ino]) == data && vol.inodes[ino].blocks == Sectors(vol.g, |data|)
    ensures r.Ok? && data == [] ==> forall b | b in vol.own :: vol.own[b].ino != ino
    ensures r.Err? ==> data != [] && NoSpace(vol.g, vol.own)
    ensures r.Err? && |data| <= vol.g.bsize ==> forall b | b in vol.own :: b in old(vol.own) && old(vol.own)[b].ino != ino
  {
    hide BlocksOk, Rewritten, FilesOk, Region, Sizes, ValidGeometry, HoldsChunk, Contents, DataBlocks, Capacity, InodeOk, Footprint, OwnOk, GroupsOk, SectorCount, Joined, Sectors, NoSpace;
    ghost var u := vol.View();
    BlocksShape(u);
    BsizePositive(vol.g);
    FilesLive(u, live, ino);
    FreeContents(vol, ino, live);
    ghost var v := vol.View();
    var sizes := AllocationByteSizes(vol.g, |data|);
    var placed := PlaceContents(vol, ino, data, sizes);
    if placed.Err? {
      KeptFrom(u, v, ino);
      return Err;
    }
    var bs := placed.value;
    ghost var x := vol.View();
    RewrittenTransitive(u, v, x, ino);
    OnlyListed(v, x, ino, bs);
    PlacedSizes(vol.g, |data|);
    var done := Install(vol, ino, bs, sizes, |data|);
    if done.Err? { return Err; }
    RewrittenTransitive(u, x, vol.View(), ino);
    SizesShape(x.g, |data|, Need(x.g, |data|) > NDADDR);
    ChunksAre(x, bs, data);
    ContentsAre(vol.View(), ino, bs);
    RewrittenFiles(u, vol.View(), live, ino);
    OkSectors(vol.View(), live, ino);
    OkMapped(vol.View(), ino);
    return Ok(());
  }

  lemma OkMapped(v: Vol, n: nat)
    requires 0 < v.g.bsize && 0 < v.g.fsize && n < |v.inodes| && InodeOk(v, n)
    ensures Mapped(v.g, v.img, v.inodes[n])
  {
    hide Mapped;
  }

  lemma KeptFrom(u: Vol, v: Vol, ino: nat)
    requires Rewritten(u, v, ino) && forall b | b in v.own :: v.own[b].ino != ino
    ensures forall b | b in v.own :: b in u.own && u.own[b].ino != ino
  {
    hide Region, InodeSideSame;
  }

  /** Points inode `ino` at blocks it already owns, and records size and sectors. */
  method Install(vol: Volume, ino: nat, bs: seq<nat>, sizes: seq<nat>, size: nat) returns (r: Result<()>)
    requires BlocksOk(vol.View()) && ino < |vol.inodes| && 0 < vol.g.bsize && 0 < vol.g.fsize && sizes == AllocSizes(vol.g, size)
    requires NoDup(bs) && Holds(vol.g, vol.own, ino, bs, sizes)
    requires forall b | b in vol.own && vol.own[b].ino == ino :: b in bs
    modifies vol, vol.image
    ensures r.Ok? ==> BlocksOk(vol.View()) && Rewritten(old(vol.View()), vol.View(), ino)
    ensures r.Ok? ==> ino < |vol.inodes| && InodeOk(vol.View(), ino) && DataBlocks(vol.g, vol.image[..], vol.inodes[ino]) == bs
    ensures r.Ok? ==> forall b | b in vol.own && vol.own[b].ino == ino :: b in Footprint(vol.View(), ino)
    ensures r.Ok? ==> SameIdentity(old(vol.inodes[ino]), vol.inodes[ino]) && vol.inodes[ino].size == size
    ensures r.Ok? ==> Joined(vol.g, vol.image[..], bs) == Joined(vol.g, old(vol.image[..]), bs)
    ensures r.Ok? && bs == [] ==> forall b | b in vol.own :: vol.own[b].ino != ino
    ensures r.Err? ==> |bs| > NDADDR && NoSpace(vol.g, vol.own)
  {
    hide BlocksOk, Rewritten, Region, Sizes, ValidGeometry, DataBlocks, Capacity, InodeOk, Footprint, OwnOk, GroupsOk, SectorCount, Joined, PointerCount, NoSpace, Structured, GoodBlock;
    ghost var x := vol.View();
    HeldNumbers(x, ino, bs, size);
    var built, ps := BuildStructure(vol, ino, bs);
    if built.Err? { return Err; }
    ghost var y := vol.View();
    RewrittenByGrow(x, y, ino, ps);
    FinishRecord(vol, ino, size, sizes, built.value, bs, ps);
    RewrittenTransitive(x, y, vol.View(), ino);
    Installed(x, y, vol.View(), ino, size, bs, ps);
    StillJoined(x, y, ino, bs, ps);
    return Ok(());
  }

  lemma ContentsAre(w: Vol, ino: nat, bs: seq<nat>)
    requires 0 < w.g.bsize && ino < |w.inodes| && DataBlocks(w.g, w.img, w.inodes[ino]) == bs
    ensures Contents(w.g, w.img, w.inodes[ino]) == Head(Joined(w.g, w.img, bs), w.inodes[ino].size)
  {
  }

  lemma FilesLive(v: Vol, live: set<nat>, n: nat)
    requires FilesOk(v, live) && n in live
    ensures 0 < v.g.bsize && 0 < v.g.fsize && n < |v.inodes| && InodeOk(v, n)
  {
  }

  lemma OnlyListed(v: Vol, x: Vol, ino: nat, bs: seq<nat>)
    requires Rewritten(v, x, ino) && x.own.Keys == v.own.Keys + Elems(bs) && forall b | b in v.own :: v.own[b].ino != ino
    ensures forall b | b in x.own && x.own[b].ino == ino :: b in bs
  {
    hide Region;
  }

  lemma HeldNumbers(v: Vol, ino: nat, bs: seq<nat>, size: nat)
    requires BlocksOk(v) && 0 < v.g.bsize && 0 < v.g.fsize && NoDup(bs) && Holds(v.g, v.own, ino, bs, AllocSizes(v.g, size))
    ensures Numbers(bs) && |bs| <= Capacity(v.g.nindir)
    ensures forall i | 0 <= i < |bs| :: GoodBlock(v.g, bs[i])
  {
    hide CgOk, GoodBlock, Sizes, Capacity;
    forall i | 0 <= i < |bs| ensures GoodBlock(v.g, bs[i]) && 0 < bs[i] < U32 {
      GoodBlockBounds(v.g, bs[i]);
    }
    AllocatedFits(v.g, bs, size);
  }

  /** Sectors of the data allocations of a file of `size` bytes. */
  method DataSectors(g: Geometry, ghost size: nat, sizes: seq<nat>) returns (total: nat)
    requires ValidGeometry(g) && 0 < g.bsize && 0 < g.fsize && sizes == AllocSizes(g, size)
    ensures total == Mul(FragSum(g, sizes), g.nspf)
  {
    hide Sizes, ValidGeometry;
    total := 0;
    SizesShape(g, size, Need(g, size) > NDADDR);
    for i := 0 to |sizes|
      invariant total == Mul(FragSum(g, sizes[..i]), g.nspf)
    {
      SectorsOf(g, sizes[i]);
      assert sizes[..i + 1][..i] == sizes[..i];
      MulAdd(FragSum(g, sizes[..i]), Quot(sizes[i], g.fsize), g.nspf);
      total := total + sizes[i] / SECTOR;
    }
    assert sizes[..|sizes|] == sizes;
  }

  /** Stores the size and the sector count of the new allocations. */
  method FinishRecord(vol: Volume, ino: nat, size: nat, sizes: seq<nat>, pointers: nat, ghost bs: seq<nat>, ghost ps: seq<nat>)
    requires BlocksOk(vol.View()) && ino < |vol.inodes| && 0 < vol.g.bsize && 0 < vol.g.fsize
    requires sizes == AllocSizes(vol.g, size) && |ps| == pointers && NoDup(bs + ps)
    requires Holds(vol.g, vol.own, ino, bs, sizes) && forall p | p in ps :: p in vol.own
    modifies vol
    ensures vol.inodes == old(vol.inodes)[ino := old(vol.inodes[ino]).(size := size, blocks := SectorCount(vol.g, sizes, pointers))]
    ensures vol.View() == old(vol.View()).(inodes := vol.inodes)
    ensures BlocksOk(vol.View()) && Rewritten(old(vol.View()), vol.View(), ino)
  {
    hide BlocksOk, Rewritten, Sizes, ValidGeometry, Region, OwnOk, GroupsOk;
    ghost var v := vol.View();
    BlocksShape(v);
    var dataSectors := DataSectors(vol.g, size, sizes);
    var pointerSectors := Mul(pointers, vol.g.bsize / SECTOR);
    PointerSectors(vol.g, pointers);
    MulAdd(FragSum(vol.g, sizes), Mul(pointers, vol.g.frag), vol.g.nspf);
    RecordFits(v, ino, size, bs, ps);
    var d := vol.inodes[ino].(size := size, blocks := (dataSectors + pointerSectors) % U32);
    vol.inodes := vol.inodes[ino := d];
    InodesIrrelevant(v, vol.View());
    RewrittenByRecord(v, ino, d);
  }

  /** Sectors in an allocation of whole fragments. */
  lemma SectorsOf(g: Geometry, a: nat)
    requires ValidGeometry(g) && GoodSize(g, a)
    ensures a / SECTOR == Mul(Quot(a, g.fsize), g.nspf)
  {
    var q := Quot(a, g.fsize);
    MulIsProduct(q, g.fsize);
    MulIsProduct(q, g.nspf);
    assert a == q * (SECTOR * g.nspf) == SECTOR * (q * g.nspf);
  }

  lemma PointerSectors(g: Geometry, k: nat)
    requires ValidGeometry(g)
    ensures Mul(k, g.bsize / SECTOR) == Mul(Mul(k, g.frag), g.nspf)
  {
    hide Mul, Capacity;
    WholeGood(g);
    SectorsOf(g, g.bsize);
    MulAssociates(k, g.frag, g.nspf);
  }

  lemma MulAssociates(a: nat, b: nat, c: nat)
    ensures Mul(a, Mul(b, c)) == Mul(Mul(a, b), c)
  {
    hide Mul;
    MulIsProduct(b, c);
    MulIsProduct(a, Mul(b, c));
    MulIsProduct(a, b);
    MulIsProduct(Mul(a, b), c);
    assert a * (b * c) == (a * b) * c;
  }

  lemma RecordFits(v: Vol, ino: nat, size: nat, bs: seq<nat>, ps: seq<nat>)
    requires BlocksOk(v) && 0 < v.g.bsize && 0 < v.g.fsize && NoDup(bs + ps)
    requires Holds(v.g, v.own, ino, bs, AllocSizes(v.g, size)) && forall p | p in ps :: p in v.own
    ensures SectorCount(v.g, AllocSizes(v.g, size), |ps|) < U32
  {
    hide CgOk, GoodBlock, Sizes, SectorCount;
    SizesShape(v.g, size, Need(v.g, size) > NDADDR);
    assert forall i | 0 <= i < |ps| :: ps[i] in ps;
    SectorsFit(v.g, bs, AllocSizes(v.g, size), ps);
  }

  /** The rebuilt inode is right and owns exactly what it reaches. */
  lemma Installed(x: Vol, y: Vol, w: Vol, ino: nat, size: nat, bs: seq<nat>, ps: seq<nat>)
    requires BlocksOk(x) && 0 < x.g.bsize && 0 < x.g.fsize && ino < |x.inodes| && |y.inodes| == |x.inodes|
    requires NoDup(bs) && Holds(x.g, x.own, ino, bs, AllocSizes(x.g, size))
    requires forall b | b in x.own && x.own[b].ino == ino :: b in bs
    requires Grown(x, y.(inodes := x.inodes), ino, ps) && Structured(y.g, y.img, y.inodes[ino], bs, ps)
    requires |ps| == PointerCount(x.g.nindir, |bs|)
    requires w == y.(inodes := y.inodes[ino := y.inodes[ino].(size := size, blocks := SectorCount(y.g, AllocSizes(y.g, size), |ps|))])
    ensures 0 < w.g.bsize && 0 < w.g.fsize && InodeOk(w, ino) && w.g == x.g && Footprint(w, ino) == bs + ps
    ensures DataBlocks(w.g, w.img, w.inodes[ino]) == bs
    ensures forall b | b in w.own && w.own[b].ino == ino :: b in Footprint(w, ino)
  {
    hide BlocksOk, Region, Sizes, SectorCount, DataBlocks, PtrBlocks, ValidGeometry, GoodBlock, InodeSideSame, SameExcept, PointerCount, Need;
    var d := w.inodes[ino];
    SideGeometry(x, y.(inodes := x.inodes));
    BlocksShape(x);
    SizesShape(x.g, size, Need(x.g, size) > NDADDR);
    WalksAre(w.g, w.img, y.inodes[ino], d, bs, ps);
    GrownOwned(x, y.(inodes := x.inodes), ino, ps);
    NoDupConcat(bs, ps);
    assert forall b | b in w.own && w.own[b].ino == ino :: b in bs || b in ps;
  }

  /** With a size that needs them all, the data blocks are the listed blocks. */
  lemma WalksAre(g: Geometry, img: seq<byte>, c: Dinode, d: Dinode, bs: seq<nat>, ps: seq<nat>)
    requires 0 < g.bsize && Structured(g, img, c, bs, ps) && Need(g, d.size) == |bs|
    requires d == c.(size := d.size, blocks := d.blocks)
    ensures DataBlocks(g, img, d) == bs && PtrBlocks(g, img, d) == ps && Mapped(g, img, d)
  {
    hide Leaves, Inner, Need, NonZero, EntryOf;
    assert forall k | 0 <= k < |bs| :: BlockOf(g, img, d, k) == BlockOf(g, img, c, k);
  }

  /** Building the pointer blocks did not disturb the data already in place. */
  lemma StillJoined(x: Vol, y: Vol, ino: nat, bs: seq<nat>, ps: seq<nat>)
    requires BlocksOk(x) && Grown(x, y.(inodes := x.inodes), ino, ps) && y.g == x.g
    requires forall i | 0 <= i < |bs| :: bs[i] in x.own
    ensures Joined(y.g, y.img, bs) == Joined(x.g, x.img, bs)
  {
    hide CgOk, GoodBlock, Region, ValidGeometry, InodeSideSame;
    forall b | b in bs ensures Region(x.g, y.img, b) == Region(x.g, x.img, b) {
      assert b !in Elems(ps);
    }
    JoinedFrame(x.g, x.img, y.img, bs);
  }

  lemma ChunksAre(x: Vol, bs: seq<nat>, data: seq<byte>)
    requires 0 < x.g.bsize && |bs| == Need(x.g, |data|)
    requires forall i | 0 <= i < |bs| :: HoldsChunk(x.g, x.img, bs[i], data, i)
    ensures Head(Joined(x.g, x.img, bs), |data|) == data
  {
    hide HoldsChunk, Region;
    ChunksJoin(x.g, x.img, bs, data);
    NeedCovers(x.g, |data|);
  }
}
