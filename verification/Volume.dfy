/**
 The state of a mounted slice: cylinder groups, superblock totals, inode table
 and the bytes of every fragment. `Vol` is the value a `Volume` object holds at
 one moment; `own` records, for specification only, which inode each allocated
 block belongs to and how many of its fragments are taken.
 */
module VolumeState {
  import opened Arith
  import opened Geometry

  /** File types; `Unset` is a cleared inode. */
  datatype FileType = Unset | Regular | Directory | Symlink | CharSpecial | BlockSpecial

  /** `struct csum`: the four free counts of a group or of the whole slice. */
  datatype Csum = Csum(ndir: nat, nbfree: nat, nifree: nat, nffree: nat)

  /** `struct cg`: one cylinder group header with its two bitmaps. */
  datatype Cg = Cg(magic: bool, ndblk: nat, cs: Csum, irotor: nat, iused: seq<bool>, free: seq<bool>)

  /** An on-disk inode, without owner, permissions and times. */
  datatype Dinode = Dinode(kind: FileType, nlink: nat, size: nat,
                           direct: seq<nat>, ib1: nat, ib2: nat, ib3: nat, blocks: nat)

  /** One allocation: `frags` fragments at the start of an aligned block. */
  datatype Claim = Claim(ino: nat, frags: nat)

  datatype Vol = Vol(g: Geometry, img: seq<byte>, cgs: seq<Cg>, totals: Csum,
                     inodes: seq<Dinode>, own: map<nat, Claim>)

  datatype Result<T> = Ok(value: T) | Err

  // --- bitmaps ---------------------------------------------------------------

  ghost predicate AllFree(bits: seq<bool>, lo: nat, n: nat) {
    lo + n <= |bits| && forall i | lo <= i < lo + n :: bits[i]
  }

  /** `bits` with the run `[lo, lo + n)` set to `val`. */
  function Mark(bits: seq<bool>, lo: nat, n: nat, val: bool): (r: seq<bool>)
    ensures |r| == |bits|
    ensures forall i | 0 <= i < |bits| :: r[i] == if lo <= i < lo + n then val else bits[i]
  {
    seq(|bits|, i requires 0 <= i < |bits| => if lo <= i < lo + n then val else bits[i])
  }

  function One(b: bool): nat { if b then 1 else 0 }

  /** Wholly free blocks among the aligned positions `loc, loc + frag, ...` below `limit`. */
  ghost function FreeBlocks(bits: seq<bool>, frag: nat, loc: nat, limit: nat): nat
    requires 0 < frag
    decreases limit - loc
  {
    if loc + frag > limit then 0
    else One(AllFree(bits, loc, frag)) + FreeBlocks(bits, frag, loc + frag, limit)
  }

  /** Number of `false` entries among the first `n`. */
  ghost function Clear(bits: seq<bool>, n: nat): nat
    requires n <= |bits|
  {
    if n == 0 then 0 else Clear(bits, n - 1) + if bits[n - 1] then 0 else 1
  }

  function Add(a: Csum, b: Csum): Csum {
    Csum(a.ndir + b.ndir, a.nbfree + b.nbfree, a.nifree + b.nifree, a.nffree + b.nffree)
  }

  /** Field-wise sum of the group counts. */
  function Total(cgs: seq<Cg>): Csum {
    if cgs == [] then Csum(0, 0, 0, 0) else Add(Total(cgs[..|cgs| - 1]), cgs[|cgs| - 1].cs)
  }

  // --- the block side of the invariant ---------------------------------------

  /** Fragment `f` of group `cg` is free: in the data area and under no claim. */
  ghost predicate FragFree(g: Geometry, own: map<nat, Claim>, cg: nat, f: nat)
    requires ValidGeometry(g)
  {
    g.dblkno <= f < CgFrags(g, cg) && !Taken(g, own, cg, f)
  }

  ghost predicate Taken(g: Geometry, own: map<nat, Claim>, cg: nat, f: nat)
    requires ValidGeometry(g)
  {
    var o := Rem(f, g.frag);
    var b := CgBase(g, cg) + f - o;
    b in own && o < own[b].frags
  }

  /** The group's free map is exactly the complement of the claims on it. */
  ghost predicate CgOk(g: Geometry, own: map<nat, Claim>, cg: nat, c: Cg)
    requires ValidGeometry(g)
  {
    && c.magic && c.ndblk == CgFrags(g, cg) && |c.free| == g.fpg && |c.iused| == g.ipg
    && (forall f | 0 <= f < g.fpg :: c.free[f] == FragFree(g, own, cg, f))
    && c.cs.nbfree == FreeBlocks(c.free, g.frag, g.dblkno, c.ndblk)
  }

  ghost predicate OwnOk(g: Geometry, own: map<nat, Claim>)
    requires ValidGeometry(g)
  {
    forall b | b in own :: GoodBlock(g, b) && 1 <= own[b].frags <= g.frag
  }

  ghost predicate GroupsOk(g: Geometry, own: map<nat, Claim>, cgs: seq<Cg>)
    requires ValidGeometry(g)
  {
    |cgs| == g.ncg && forall cg | 0 <= cg < g.ncg :: CgOk(g, own, cg, cgs[cg])
  }

  /** The tables have the sizes the geometry promises. */
  ghost predicate Shape(v: Vol) {
    && ValidGeometry(v.g)
    && |v.img| == Mul(v.g.dsize, v.g.fsize)
    && |v.cgs| == v.g.ncg && |v.inodes| == Mul(v.g.ncg, v.g.ipg)
    && forall cg | 0 <= cg < v.g.ncg ::
         v.cgs[cg].magic && v.cgs[cg].ndblk == CgFrags(v.g, cg) && |v.cgs[cg].free| == v.g.fpg && |v.cgs[cg].iused| == v.g.ipg
  }

  /** Everything the block allocator relies on and keeps. */
  ghost predicate BlocksOk(v: Vol) {
    && Shape(v)
    && OwnOk(v.g, v.own)
    && GroupsOk(v.g, v.own, v.cgs)
    && v.totals.nbfree == Total(v.cgs).nbfree
  }

  /** The bytes of the block starting at fragment `b`. */
  ghost function Region(g: Geometry, img: seq<byte>, b: nat): seq<byte> {
    var lo := Mul(b, g.fsize);
    if lo + g.bsize <= |img| then img[lo..lo + g.bsize] else []
  }

  ghost predicate SameExcept(g: Geometry, img: seq<byte>, img': seq<byte>, changed: set<nat>)
    requires ValidGeometry(g)
  {
    |img'| == |img| && forall c | GoodBlock(g, c) && c !in changed :: Region(g, img', c) == Region(g, img, c)
  }

  /** Block allocation leaves the inode half of every group and the other totals alone. */
  ghost predicate InodeSideSame(v: Vol, w: Vol) {
    && w.g == v.g && |w.cgs| == |v.cgs| && w.inodes == v.inodes
    && w.totals.(nbfree := 0) == v.totals.(nbfree := 0)
    && forall cg | 0 <= cg < |v.cgs| ::
         w.cgs[cg].(free := [], cs := w.cgs[cg].cs.(nbfree := 0)) == v.cgs[cg].(free := [], cs := v.cgs[cg].cs.(nbfree := 0))
  }

  lemma BlocksShape(v: Vol)
    requires BlocksOk(v)
    ensures Shape(v) && OwnOk(v.g, v.own) && GroupsOk(v.g, v.own, v.cgs)
  {
  }

  lemma RegionInside(g: Geometry, b: nat)
    requires ValidGeometry(g) && GoodBlock(g, b)
    ensures Mul(b, g.fsize) + g.bsize <= Mul(g.dsize, g.fsize)
  {
    GoodBlockBounds(g, b);
    MulAdd(b, g.frag, g.fsize);
    MulAdd(b + g.frag, g.dsize - b - g.frag, g.fsize);
  }

  lemma RegionsApart(g: Geometry, b: nat, c: nat)
    requires ValidGeometry(g) && GoodBlock(g, b) && GoodBlock(g, c) && b != c
    ensures Mul(b, g.fsize) + g.bsize <= Mul(c, g.fsize) || Mul(c, g.fsize) + g.bsize <= Mul(b, g.fsize)
  {
    GoodBlocksApart(g, b, c);
    if b + g.frag <= c { ByteApart(g.fsize, g.frag, b, c); } else { ByteApart(g.fsize, g.frag, c, b); }
  }

  lemma ByteApart(fsize: nat, frag: nat, b: nat, c: nat)
    requires b + frag <= c
    ensures Mul(b, fsize) + Mul(frag, fsize) <= Mul(c, fsize)
  {
    MulAdd(b, frag, fsize);
    MulAdd(b + frag, c - b - frag, fsize);
  }

  // --- allocator laws --------------------------------------------------------

  /** A whole block is free exactly when nobody owns it. */
  lemma FreeIffUnowned(g: Geometry, own: map<nat, Claim>, cg: nat, c: Cg, loc: nat)
    requires ValidGeometry(g) && OwnOk(g, own) && CgOk(g, own, cg, c) && GoodLoc(g, cg, loc)
    ensures AllFree(c.free, loc, g.frag) <==> CgBase(g, cg) + loc !in own
  {
    var b := CgBase(g, cg) + loc;
    if b in own {
      assert !c.free[loc];
    } else {
      forall f | loc <= f < loc + g.frag ensures c.free[f] {
        RemOffset(loc, f - loc, g.frag);
      }
    }
  }

  /** What `Taken` means inside one good block. */
  lemma TakenAt(g: Geometry, own: map<nat, Claim>, cg: nat, loc: nat, f: nat)
    requires ValidGeometry(g) && GoodLoc(g, cg, loc) && loc <= f < loc + g.frag
    ensures Taken(g, own, cg, f) <==> CgBase(g, cg) + loc in own && f - loc < own[CgBase(g, cg) + loc].frags
  {
    RemOffset(loc, f - loc, g.frag);
  }

  /** A claim on one block does not change what is taken elsewhere. */
  lemma TakenElsewhere(g: Geometry, own: map<nat, Claim>, own': map<nat, Claim>, cg: nat, loc: nat, cg': nat, f: nat)
    requires ValidGeometry(g) && GoodLoc(g, cg, loc) && f < g.fpg
    requires forall b | b != CgBase(g, cg) + loc :: (b in own <==> b in own') && (b in own ==> own[b] == own'[b])
    requires cg' != cg || !(loc <= f < loc + g.frag)
    ensures Taken(g, own, cg', f) == Taken(g, own', cg', f)
  {
    var o := Rem(f, g.frag);
    RemBase(f, g.frag);
    Recompose(f, g.frag);
    if cg' == cg {
      AlignedApart(loc, f - o, g.frag);
    } else {
      Decompose(cg, loc, g.fpg);
      Decompose(cg', f - o, g.fpg);
    }
  }

  lemma OtherGroup(g: Geometry, own: map<nat, Claim>, own': map<nat, Claim>, cg: nat, loc: nat, cg': nat, c: Cg)
    requires ValidGeometry(g) && GoodLoc(g, cg, loc) && cg' != cg
    requires forall b | b != CgBase(g, cg) + loc :: (b in own <==> b in own') && (b in own ==> own[b] == own'[b])
    requires CgOk(g, own, cg', c)
    ensures CgOk(g, own', cg', c)
  {
    forall f | 0 <= f < g.fpg ensures FragFree(g, own, cg', f) == FragFree(g, own', cg', f) {
      TakenElsewhere(g, own, own', cg, loc, cg', f);
    }
  }

  /** Marking part of one block changes the free-block count by that block alone. */
  lemma {:induction false} CountAfterMark(bits: seq<bool>, frag: nat, loc: nat, limit: nat, x: nat, n: nat, val: bool)
    requires 0 < frag && 1 <= n <= frag && Rem(loc, frag) == 0 && Rem(x, frag) == 0 && limit <= |bits|
    ensures x < loc || x + frag > limit ==>
              FreeBlocks(Mark(bits, x, n, val), frag, loc, limit) == FreeBlocks(bits, frag, loc, limit)
    ensures loc <= x && x + frag <= limit ==>
              FreeBlocks(Mark(bits, x, n, val), frag, loc, limit)
                == FreeBlocks(bits, frag, loc, limit) - One(AllFree(bits, x, frag)) + One(AllFree(Mark(bits, x, n, val), x, frag))
    decreases limit - loc
  {
    var bits' := Mark(bits, x, n, val);
    if loc + frag <= limit {
      RemStep(loc, frag);
      AlignedApart(loc, x, frag);
      CountAfterMark(bits, frag, loc + frag, limit, x, n, val);
      if loc != x {
        assert AllFree(bits', loc, frag) == AllFree(bits, loc, frag);
      }
    } else {
      AlignedApart(loc, x, frag);
    }
  }

  /** The group record after a run is taken from, or returned to, block `loc`. */
  function Remark(c: Cg, loc: nat, n: nat, val: bool, nbfree: nat): Cg {
    c.(free := Mark(c.free, loc, n, val), cs := c.cs.(nbfree := nbfree))
  }

  lemma TakeOk(g: Geometry, own: map<nat, Claim>, cg: nat, c: Cg, loc: nat, k: Claim)
    requires ValidGeometry(g) && OwnOk(g, own) && CgOk(g, own, cg, c)
    requires GoodLoc(g, cg, loc) && CgBase(g, cg) + loc !in own && 1 <= k.frags <= g.frag
    ensures 0 < c.cs.nbfree
    ensures CgOk(g, own[CgBase(g, cg) + loc := k], cg, Remark(c, loc, k.frags, false, c.cs.nbfree - 1))
  {
    var own' := own[CgBase(g, cg) + loc := k];
    FreeIffUnowned(g, own, cg, c, loc);
    CountAfterMark(c.free, g.frag, g.dblkno, c.ndblk, loc, k.frags, false);
    var bits' := Mark(c.free, loc, k.frags, false);
    assert !bits'[loc];
    forall f | 0 <= f < g.fpg ensures bits'[f] == FragFree(g, own', cg, f) {
      if loc <= f < loc + g.frag { TakenAt(g, own', cg, loc, f); TakenAt(g, own, cg, loc, f); }
      else { TakenElsewhere(g, own, own', cg, loc, cg, f); }
    }
  }

  lemma GiveBits(g: Geometry, own: map<nat, Claim>, cg: nat, c: Cg, loc: nat, f: nat)
    requires ValidGeometry(g) && OwnOk(g, own) && CgOk(g, own, cg, c) && f < g.fpg
    requires GoodLoc(g, cg, loc) && CgBase(g, cg) + loc in own
    ensures Mark(c.free, loc, own[CgBase(g, cg) + loc].frags, true)[f] == FragFree(g, own - {CgBase(g, cg) + loc}, cg, f)
    ensures loc <= f < loc + g.frag ==> FragFree(g, own - {CgBase(g, cg) + loc}, cg, f)
  {
    var own' := own - {CgBase(g, cg) + loc};
    if loc <= f < loc + g.frag { TakenAt(g, own', cg, loc, f); TakenAt(g, own, cg, loc, f); }
    else { TakenElsewhere(g, own, own', cg, loc, cg, f); }
  }

  lemma GiveOk(g: Geometry, own: map<nat, Claim>, cg: nat, c: Cg, loc: nat)
    requires ValidGeometry(g) && OwnOk(g, own) && CgOk(g, own, cg, c)
    requires GoodLoc(g, cg, loc) && CgBase(g, cg) + loc in own
    ensures AllFree(Mark(c.free, loc, own[CgBase(g, cg) + loc].frags, true), loc, g.frag)
    ensures CgOk(g, own - {CgBase(g, cg) + loc}, cg, Remark(c, loc, own[CgBase(g, cg) + loc].frags, true, c.cs.nbfree + 1))
  {
    var n := own[CgBase(g, cg) + loc].frags;
    var own' := own - {CgBase(g, cg) + loc};
    var bits' := Mark(c.free, loc, n, true);
    forall f | 0 <= f < g.fpg
      ensures bits'[f] == FragFree(g, own', cg, f) && (loc <= f < loc + g.frag ==> bits'[f])
    {
      GiveBits(g, own, cg, c, loc, f);
    }
    FreeIffUnowned(g, own, cg, c, loc);
    CountAfterMark(c.free, g.frag, g.dblkno, c.ndblk, loc, n, true);
  }

  // --- totals ----------------------------------------------------------------

  lemma {:induction false} TotalUpdate(cgs: seq<Cg>, i: nat, c: Cg)
    requires i < |cgs|
    ensures Add(Total(cgs[i := c]), cgs[i].cs) == Add(Total(cgs), c.cs)
    decreases |cgs|
  {
    var n := |cgs| - 1;
    if i < n {
      assert cgs[i := c][..n] == cgs[..n][i := c];
      TotalUpdate(cgs[..n], i, c);
    } else {
      assert cgs[i := c][..n] == cgs[..n];
    }
  }

  /** A free block uses up fragments, so no count exceeds the group's size. */
  lemma {:induction false} CountBound(bits: seq<bool>, frag: nat, loc: nat, limit: nat)
    requires 0 < frag
    ensures FreeBlocks(bits, frag, loc, limit) <= if loc <= limit then limit - loc else 0
    decreases limit - loc
  {
    if loc + frag <= limit { CountBound(bits, frag, loc + frag, limit); }
  }

  /** The groups' fragments add up to at most the slice. */
  lemma {:induction false} TotalBound(v: Vol, k: nat)
    requires ValidGeometry(v.g) && GroupsOk(v.g, v.own, v.cgs) && k <= |v.cgs|
    ensures Total(v.cgs[..k]).nbfree <= Min(v.g.dsize, CgBase(v.g, k))
    decreases k
  {
    if k != 0 {
      TotalBound(v, k - 1);
      assert v.cgs[..k][..k - 1] == v.cgs[..k - 1];
      var c := v.cgs[k - 1];
      CountBound(c.free, v.g.frag, v.g.dblkno, c.ndblk);
    }
  }

  /** Every free-block count is far from the 32-bit limit. */
  lemma CountsFit(v: Vol)
    requires BlocksOk(v)
    ensures v.totals.nbfree < U32
    ensures forall cg | 0 <= cg < v.g.ncg :: v.cgs[cg].cs.nbfree < U32
  {
    TotalBound(v, v.g.ncg);
    assert v.cgs[..v.g.ncg] == v.cgs;
    forall cg | 0 <= cg < v.g.ncg ensures v.cgs[cg].cs.nbfree < U32 {
      var c := v.cgs[cg];
      CountBound(c.free, v.g.frag, v.g.dblkno, c.ndblk);
    }
  }

  /** The bitmaps are a function of the ledger: equal claims mean equal free maps. */
  lemma LedgerFixesBitmaps(v: Vol, w: Vol)
    requires BlocksOk(v) && BlocksOk(w) && v.g == w.g && v.own == w.own
    ensures forall cg | 0 <= cg < v.g.ncg :: v.cgs[cg].free == w.cgs[cg].free && v.cgs[cg].cs.nbfree == w.cgs[cg].cs.nbfree
    ensures v.totals.nbfree == w.totals.nbfree
  {
    forall cg | 0 <= cg < v.g.ncg ensures v.cgs[cg].free == w.cgs[cg].free {
      assert CgOk(v.g, v.own, cg, v.cgs[cg]) && CgOk(w.g, w.own, cg, w.cgs[cg]);
    }
    SameCountsSameTotal(v.cgs, w.cgs);
  }

  lemma {:induction false} SameCountsSameTotal(a: seq<Cg>, b: seq<Cg>)
    requires |a| == |b| && forall i | 0 <= i < |a| :: a[i].cs.nbfree == b[i].cs.nbfree
    ensures Total(a).nbfree == Total(b).nbfree
    decreases |a|
  {
    if a != [] { SameCountsSameTotal(a[..|a| - 1], b[..|b| - 1]); }
  }

  /** Taking block `loc` of group `cg` for claim `k`. */
  ghost function Take(v: Vol, cg: nat, loc: nat, k: Claim): Vol
    requires cg < |v.cgs| && 0 < v.cgs[cg].cs.nbfree && 0 < v.totals.nbfree
  {
    var c := v.cgs[cg];
    v.(cgs := v.cgs[cg := Remark(c, loc, k.frags, false, c.cs.nbfree - 1)],
       totals := v.totals.(nbfree := v.totals.nbfree - 1),
       own := v.own[CgBase(v.g, cg) + loc := k])
  }

  lemma TakeCounts(v: Vol, cg: nat, loc: nat, k: Claim)
    requires BlocksOk(v) && GoodLoc(v.g, cg, loc) && CgBase(v.g, cg) + loc !in v.own && 1 <= k.frags <= v.g.frag
    ensures 0 < v.cgs[cg].cs.nbfree && 0 < v.totals.nbfree
    ensures CgOk(v.g, v.own[CgBase(v.g, cg) + loc := k], cg, Remark(v.cgs[cg], loc, k.frags, false, v.cgs[cg].cs.nbfree - 1))
    ensures Take(v, cg, loc, k).totals.nbfree == Total(Take(v, cg, loc, k).cgs).nbfree
  {
    hide CgOk, OwnOk, Total;
    var c := v.cgs[cg];
    assert CgOk(v.g, v.own, cg, c);
    TakeOk(v.g, v.own, cg, c, loc, k);
    TotalUpdate(v.cgs, cg, c.(cs := Csum(0, 0, 0, 0)));
    TotalUpdate(v.cgs, cg, Remark(c, loc, k.frags, false, c.cs.nbfree - 1));
  }

  lemma TakeKeeps(v: Vol, cg: nat, loc: nat, k: Claim)
    requires BlocksOk(v) && GoodLoc(v.g, cg, loc) && CgBase(v.g, cg) + loc !in v.own && 1 <= k.frags <= v.g.frag
    ensures 0 < v.cgs[cg].cs.nbfree && 0 < v.totals.nbfree
    ensures BlocksOk(Take(v, cg, loc, k))
  {
    hide CgOk, Total;
    TakeCounts(v, cg, loc, k);
    GoodAt(v.g, cg, loc);
    GroupsAfter(v.g, v.own, v.cgs, cg, loc, v.own[CgBase(v.g, cg) + loc := k], Take(v, cg, loc, k).cgs[cg]);
  }

  /** After a change to one group that suits the new claims, all groups suit them. */
  lemma GroupsAfter(g: Geometry, own: map<nat, Claim>, cgs: seq<Cg>, cg: nat, loc: nat, own': map<nat, Claim>, c: Cg)
    requires ValidGeometry(g) && GoodLoc(g, cg, loc) && GroupsOk(g, own, cgs)
    requires forall b | b != CgBase(g, cg) + loc :: (b in own <==> b in own') && (b in own ==> own[b] == own'[b])
    requires CgOk(g, own', cg, c)
    ensures GroupsOk(g, own', cgs[cg := c])
  {
    var cgs' := cgs[cg := c];
    forall i | 0 <= i < g.ncg ensures CgOk(g, own', i, cgs'[i]) {
      if i != cg { OtherGroup(g, own, own', cg, loc, i, cgs[i]); }
    }
  }

  /** Returning the claim on block `loc` of group `cg`. */
  ghost function Give(v: Vol, cg: nat, loc: nat): Vol
    requires cg < |v.cgs| && CgBase(v.g, cg) + loc in v.own
  {
    var c := v.cgs[cg];
    v.(cgs := v.cgs[cg := Remark(c, loc, v.own[CgBase(v.g, cg) + loc].frags, true, c.cs.nbfree + 1)],
       totals := v.totals.(nbfree := v.totals.nbfree + 1),
       own := v.own - {CgBase(v.g, cg) + loc})
  }

  lemma GiveKeeps(v: Vol, cg: nat, loc: nat)
    requires BlocksOk(v) && GoodLoc(v.g, cg, loc) && CgBase(v.g, cg) + loc in v.own
    ensures BlocksOk(Give(v, cg, loc))
  {
    hide CgOk, Total;
    var c, w := v.cgs[cg], Give(v, cg, loc);
    GiveOkAt(v, cg, loc);
    TotalUpdate(v.cgs, cg, w.cgs[cg]);
    GroupsAfter(v.g, v.own, v.cgs, cg, loc, w.own, w.cgs[cg]);
  }

  lemma GiveOkAt(v: Vol, cg: nat, loc: nat)
    requires BlocksOk(v) && GoodLoc(v.g, cg, loc) && CgBase(v.g, cg) + loc in v.own
    ensures CgOk(v.g, Give(v, cg, loc).own, cg, Give(v, cg, loc).cgs[cg])
    ensures AllFree(Give(v, cg, loc).cgs[cg].free, loc, v.g.frag)
  {
    hide CgOk, Total, OwnOk;
    assert CgOk(v.g, v.own, cg, v.cgs[cg]);
    GiveOk(v.g, v.own, cg, v.cgs[cg], loc);
  }

  /** Freeing an allocation restores the state, bitmaps and counts included, that preceded it. */
  lemma GiveUndoesTake(v: Vol, cg: nat, loc: nat, k: Claim)
    requires BlocksOk(v) && GoodLoc(v.g, cg, loc) && CgBase(v.g, cg) + loc !in v.own && 1 <= k.frags <= v.g.frag
    ensures 0 < v.cgs[cg].cs.nbfree && 0 < v.totals.nbfree
    ensures Give(Take(v, cg, loc, k), cg, loc) == v
  {
    hide CgOk, Total, OwnOk;
    TakeCounts(v, cg, loc, k);
    var c := v.cgs[cg];
    assert CgOk(v.g, v.own, cg, c);
    FreeIffUnowned(v.g, v.own, cg, c, loc);
    assert Mark(Mark(c.free, loc, k.frags, false), loc, k.frags, true) == c.free;
    assert v.own[CgBase(v.g, cg) + loc := k] - {CgBase(v.g, cg) + loc} == v.own;
  }
}
