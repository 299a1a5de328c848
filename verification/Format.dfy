/** The formatter: from a layout to a consistent file system with an empty root. */
module Format {
  import opened Arith
  import opened Geometry
  import opened VolumeState
  import opened Alloc
  import opened Inodes
  import opened Write
  import opened Dir
  import opened Directory
  import opened DirOps
  import opened InodeAlloc
  import opened Tree
  import opened Mirror
  import opened Births
  import opened Namespace
  import opened History
  import opened Recount
  import opened Summary
  import opened Layout

  /** Slices below 128 GiB, so that every inode number fits 31 bits. */
  const SLICE: nat := 0x1000_0000

  lemma Enormous(n: nat, frag: nat)
    requires (n == 1024 && frag == 8) || (n == 2048 && frag == 16)
    ensures U32 < Mul(Capacity(n), frag)
  {
    hide Mul;
    MulIsProduct(n, 1);
    MulIsProduct(n, n);
    MulIsProduct(n, n * n);
    MulIsProduct(Capacity(n), frag);
    assert Reach(n, 0) == 1 && Reach(n, 1) == n && Reach(n, 2) == n * n;
    assert Reach(n, 3) == n * (n * n);
    if n == 1024 { assert n * (n * n) == 0x4000_0000; } else { assert n * (n * n) == 0x2_0000_0000; }
    assert Capacity(n) >= 0x4000_0000;
    assert Capacity(n) * frag >= Capacity(n) * 8 by { Monotone(8, frag, Capacity(n)); }
  }

  lemma InodeNumbers(l: Layout)
    requires Ordered(l) && Tiled(l) && l.total < SLICE
    ensures Mul(l.ncg, l.ipg) < I31 && ROOT < l.ipg
  {
    hide Mul, Rem;
    MulIsProduct(l.iblocks, l.frag);
    MulIsProduct(l.iblocks, l.inopb);
    FourPerFragment(l.iblocks, l.frag);
    MulSucc(l.ncg - 1, l.fpg);
    Quadruple(l.ncg, l.ipg, l.fpg);
  }

  lemma Quadruple(n: nat, a: nat, b: nat)
    requires a <= 4 * b
    ensures Mul(n, a) <= 4 * Mul(n, b)
  {
    MulIsProduct(n, a);
    MulIsProduct(n, b);
    Monotone(a, 4 * b, n);
    assert a * n == n * a && 4 * b * n == 4 * (n * b);
  }

  lemma FourPerFragment(blocks: nat, frag: nat)
    requires 0 < blocks && 8 <= frag
    ensures blocks * (4 * frag) == 4 * (blocks * frag) && 32 <= blocks * (4 * frag)
  {
    Monotone(1, blocks, 4 * frag);
  }

  lemma PlanGeometry(l: Layout)
    requires Ordered(l) && Tiled(l) && l.total < SLICE
    ensures ValidGeometry(GeometryOf(l))
  {
    hide Mul, Rem, Capacity;
    InodeNumbers(l);
    Enormous(l.bsize / 4, l.frag);
    MulIsProduct(l.frag, SECTOR);
    MulIsProduct(l.total, 1);
  }

  // --- pristine groups -------------------------------------------------------

  lemma {:induction false} FreeStretch(bits: seq<bool>, frag: nat, loc: nat, limit: nat)
    requires 0 < frag && loc <= limit <= |bits| && forall i | loc <= i < limit :: bits[i]
    ensures FreeBlocks(bits, frag, loc, limit) == Quot(limit - loc, frag)
    decreases limit - loc
  {
    if loc + frag <= limit { FreeStretch(bits, frag, loc + frag, limit); }
  }

  /** `initialize_pristine_cg`: the whole data area free, no inode used but the reserved two. */
  method PristineGroup(g: Geometry, cg: nat) returns (c: Cg)
    requires ValidGeometry(g)
    ensures CgOk(g, map[], cg, c)
    ensures forall i | 0 <= i < g.ipg :: c.iused[i] <==> cg == 0 && i < 2
    ensures 0 < g.frag && c.ndblk <= |c.free| && c.cs == Csum(0, FreeBlocks(c.free, g.frag, 0, c.ndblk), Clear(c.iused, g.ipg), Loose(c.free, g.frag, 0, c.ndblk))
  {
    hide Mul, Quot, Rem, FreeBlocks, Loose;
    FragPositive(g);
    FragsUpTo(g, cg);
    var ndblk := CgFrags(g, cg);
    var data := Max(ndblk - g.dblkno, 0);
    var iused := seq(g.ipg, i => cg == 0 && i < 2);
    var free := SetRun(seq(g.fpg, _ => false), g.dblkno, data, true);
    var cs := Csum(0, Quot(data, g.frag), g.ipg - (if cg == 0 then 2 else 0), Rem(data, g.frag));
    c := Cg(true, ndblk, cs, 0, iused, free);
    if g.dblkno <= ndblk { FreeStretch(free, g.frag, g.dblkno, ndblk); } else { NoStretch(free, g.frag, g.dblkno, ndblk); }
    PristineCounts(g, free, g.dblkno, ndblk);
    PristineClear(iused, cg, g.ipg);
  }

  lemma PristineCounts(g: Geometry, free: seq<bool>, start: nat, limit: nat)
    requires 0 < g.frag && Rem(start, g.frag) == 0 && limit <= |free| && start <= |free|
    requires forall i | 0 <= i < |free| :: free[i] <==> start <= i < limit
    ensures FreeBlocks(free, g.frag, 0, limit) == FreeBlocks(free, g.frag, start, limit)
    ensures Loose(free, g.frag, 0, limit) == Rem(Max(limit - start, 0), g.frag)
  {
    hide Mul, Quot, Rem, FreeBlocks, Loose;
    Decompose(0, 0, g.frag);
    MulZero(g.frag);
    NoFreeBelow(free, g.frag, 0, start, limit);
    NoLooseBelow(free, g.frag, 0, start, limit);
    LooseStretch(free, g.frag, start, limit);
  }

  lemma {:induction false} LooseStretch(bits: seq<bool>, frag: nat, loc: nat, limit: nat)
    requires 0 < frag && limit <= |bits| && forall i | loc <= i < limit :: bits[i]
    ensures Loose(bits, frag, loc, limit) == Rem(Max(limit - loc, 0), frag)
    decreases limit - loc
  {
    hide CountSet;
    if loc + frag <= limit {
      LooseStretch(bits, frag, loc + frag, limit);
      RemStep(limit - loc - frag, frag);
    } else if loc <= limit {
      CountAll(bits, loc, limit);
    }
  }

  lemma {:induction false} PristineClear(iused: seq<bool>, cg: nat, k: nat)
    requires k <= |iused| && forall i | 0 <= i < |iused| :: iused[i] <==> cg == 0 && i < 2
    ensures Clear(iused, k) == k - if cg == 0 then Min(k, 2) else 0
    decreases k
  {
    if k != 0 { PristineClear(iused, cg, k - 1); }
  }

  lemma NoStretch(bits: seq<bool>, frag: nat, loc: nat, limit: nat)
    requires 0 < frag && limit < loc
    ensures FreeBlocks(bits, frag, loc, limit) == 0 && Quot(0, frag) == 0
  {
  }

  /** The inode bits of a fresh slice: the two reserved inodes and the root. */
  ghost predicate FreshBits(g: Geometry, cg: nat, c: Cg) {
    |c.iused| == g.ipg && forall i | 0 <= i < g.ipg :: c.iused[i] <==> cg == 0 && i <= ROOT
  }

  /** Pristine headers for every group, with the root inode's bit set in the first. */
  method FreshGroups(g: Geometry) returns (cgs: seq<Cg>, totals: Csum)
    requires ValidGeometry(g)
    ensures GroupsOk(g, map[], cgs) && totals == Total(cgs)
    ensures forall cg | 0 <= cg < g.ncg :: FreshBits(g, cg, cgs[cg])
  {
    hide CgOk, ValidGeometry, FreshBits;
    cgs, totals := [], Csum(0, 0, 0, 0);
    for cg := 0 to g.ncg
      invariant |cgs| == cg && totals == Total(cgs)
      invariant forall i | 0 <= i < cg :: CgOk(g, map[], i, cgs[i]) && FreshBits(g, i, cgs[i])
    {
      var c := FreshGroup(g, cg);
      TotalMore(cgs, c);
      cgs := cgs + [c];
      totals := Add(totals, c.cs);
    }
  }

  method FreshGroup(g: Geometry, cg: nat) returns (c: Cg)
    requires ValidGeometry(g)
    ensures CgOk(g, map[], cg, c) && FreshBits(g, cg, c)
  {
    hide Mul, Rem, FreeBlocks;
    c := PristineGroup(g, cg);
    if cg == 0 {
      c := c.(iused := c.iused[ROOT := true]);
    }
  }

  /** The inode table of a zeroed slice with the root initialised. */
  function FreshTable(n: nat): (r: seq<Dinode>)
    requires ROOT < n
    ensures |r| == n && r[ROOT] == Fresh(Directory, 2) && forall i | 0 <= i < n && i != ROOT :: r[i] == Blank()
  {
    var blank: seq<Dinode> := seq(n, _ => Blank());
    blank[ROOT := Fresh(Directory, 2)]
  }

  /** A slice just before its root directory is written. */
  ghost predicate Started(v: Vol) {
    && BlocksOk(v) && FilesOk(v, {ROOT}) && v.own == map[]
    && (forall cg | 0 <= cg < v.g.ncg :: FreshBits(v.g, cg, v.cgs[cg]))
    && ROOT < |v.inodes| && v.inodes[ROOT] == Fresh(Directory, 2)
    && forall i | 0 <= i < |v.inodes| && i != ROOT :: v.inodes[i] == Blank()
  }

  lemma Start(v: Vol)
    requires ValidGeometry(v.g) && GroupsOk(v.g, map[], v.cgs) && v.totals == Total(v.cgs) && v.own == map[]
    requires |v.img| == Mul(v.g.dsize, v.g.fsize) && |v.inodes| == Mul(v.g.ncg, v.g.ipg)
    requires forall cg | 0 <= cg < v.g.ncg :: FreshBits(v.g, cg, v.cgs[cg])
    requires ROOT < |v.inodes| && v.inodes[ROOT] == Fresh(Directory, 2)
    requires forall i | 0 <= i < |v.inodes| && i != ROOT :: v.inodes[i] == Blank()
    ensures Started(v)
  {
    hide FreshBits, Fresh, Blank, Mul, InodeOk, Total;
    BsizePositive(v.g);
    FreshHoldless(Directory, 2);
    HoldlessOk(v, ROOT);
    StartShape(v);
  }

  lemma StartShape(v: Vol)
    requires ValidGeometry(v.g) && GroupsOk(v.g, map[], v.cgs)
    requires |v.img| == Mul(v.g.dsize, v.g.fsize) && |v.inodes| == Mul(v.g.ncg, v.g.ipg)
    ensures Shape(v) && OwnOk(v.g, map[])
  {
    hide FreeBlocks;
    forall cg | 0 <= cg < v.g.ncg
      ensures v.cgs[cg].magic && v.cgs[cg].ndblk == CgFrags(v.g, cg) && |v.cgs[cg].free| == v.g.fpg && |v.cgs[cg].iused| == v.g.ipg
    {
      assert CgOk(v.g, map[], cg, v.cgs[cg]);
    }
  }

  /** Exactly the root inode is in use past the reserved two. */
  lemma FreshUse(v: Vol, n: nat)
    requires Shape(v) && n < |v.inodes| && forall cg | 0 <= cg < v.g.ncg :: FreshBits(v.g, cg, v.cgs[cg])
    ensures ROOT <= n && Used(v, n) <==> n == ROOT
  {
    hide Mul, Quot, Rem;
    var cg, l := Quot(n, v.g.ipg), Rem(n, v.g.ipg);
    GroupOf(v.g, n);
    assert FreshBits(v.g, cg, v.cgs[cg]);
    MulZero(v.g.ipg);
    if cg > 0 { MulLess(0, cg, v.g.ipg); }
  }

  /** With the root directory written and the summaries recounted, the file system is consistent. */
  lemma Finished(v: Vol, w: Vol)
    requires Started(v) && BlocksOk(w) && FilesOk(w, {ROOT}) && Rewritten(v, w, ROOT) && v.g.dsize < I31
    requires ROOT < |w.inodes| && SameIdentity(v.inodes[ROOT], w.inodes[ROOT])
    requires Contents(w.g, w.img, w.inodes[ROOT]) == DotBlock(ROOT, ROOT)
    ensures Shape(w) && FsOk(Recounted(w), Bare())
  {
    hide BlocksOk, FilesOk, Rewritten, Contents, Started, CountsOk, Shape, DotBlock, TableOk, TreeOk, Refs, DirsMatch, Rebuilt, LinksMatch;
    SoundShape(w, {ROOT});
    var z := Recounted(w);
    SideFacts(v, w, ROOT);
    RecountedShape(w);
    RecountBlocks(w);
    FinishedBits(v, w);
    RecountCounts(w);
    FinishedFiles(w, z);
    FinishedTable(v, w, z);
    RootListed(z);
    BareOk();
    BareParts();
  }

  lemma BareParts()
    ensures Bare().kinds.Keys == {ROOT} && Bare().bytes == map[] && Bare().devices == map[] && Bare().kinds == map[ROOT := Directory]
  {
    assert Bare().kinds.Keys == {ROOT};
  }

  lemma FinishedBits(v: Vol, w: Vol)
    requires Started(v) && Rewritten(v, w, ROOT) && Shape(w)
    ensures forall cg | 0 <= cg < w.g.ncg :: FreshBits(w.g, cg, w.cgs[cg])
    ensures w.cgs[0].iused[0] && w.cgs[0].iused[1]
  {
    hide BlocksOk, FilesOk, Rewritten, Fresh, Blank, Mul, Rem, Capacity;
    SideFacts(v, w, ROOT);
    assert FreshBits(v.g, 0, v.cgs[0]);
    forall cg | 0 <= cg < w.g.ncg ensures FreshBits(w.g, cg, w.cgs[cg]) {
      assert FreshBits(v.g, cg, v.cgs[cg]);
    }
  }

  lemma FinishedFiles(w: Vol, z: Vol)
    requires FilesOk(w, {ROOT}) && ROOT < |w.inodes| && z == w.(cgs := z.cgs, totals := z.totals)
    ensures FilesOk(z, {ROOT}) && Contents(z.g, z.img, z.inodes[ROOT]) == Contents(w.g, w.img, w.inodes[ROOT])
  {
    hide Claimed, DataBlocks, PtrBlocks, Contents, AllocSizes;
    assert InodeOk(w, ROOT);
  }

  lemma FinishedTable(v: Vol, w: Vol, z: Vol)
    requires Started(v) && Rewritten(v, w, ROOT) && Shape(w) && z == Recounted(w) && Shape(z)
    requires ROOT < |w.inodes| && SameIdentity(v.inodes[ROOT], w.inodes[ROOT])
    requires forall cg | 0 <= cg < w.g.ncg :: FreshBits(w.g, cg, w.cgs[cg])
    ensures TableOk(z, Bare()) && LinksMatch(z, Bare()) && z.inodes[ROOT].kind == Directory
  {
    hide BlocksOk, FilesOk, Rewritten, Shape, Used, Refs, Fresh, Blank, TreeOk, Rooted;
    SideFacts(v, w, ROOT);
    FreshIs(Directory, 2);
    BlankIs();
    BareOk();
    BareParts();
    SameFresh(w);
    forall n: nat | n < |z.inodes| ensures ROOT <= n && Used(z, n) <==> n == ROOT { FreshUse(z, n); }
  }

  lemma SameFresh(w: Vol)
    requires Shape(w) && forall cg | 0 <= cg < w.g.ncg :: FreshBits(w.g, cg, w.cgs[cg])
    ensures forall cg | 0 <= cg < w.g.ncg :: FreshBits(w.g, cg, Recounted(w).cgs[cg])
  {
    hide ValidGeometry, ExactCounts;
    forall cg | 0 <= cg < w.g.ncg ensures FreshBits(w.g, cg, Recounted(w).cgs[cg]) {
      assert FreshBits(w.g, cg, w.cgs[cg]);
      assert Recounted(w).cgs[cg] == Rebuilt(w, cg);
    }
  }

  lemma RootListed(z: Vol)
    requires 0 < z.g.bsize && ROOT < |z.inodes| && z.inodes[ROOT].kind == Directory
    requires Contents(z.g, z.img, z.inodes[ROOT]) == DotBlock(ROOT, ROOT)
    ensures DirsMatch(z, Bare())
  {
    hide Contents, DotBlock, DirTiled, Live, Lists;
    DotBlockOk(ROOT, ROOT);
    DotListed(Bare(), ROOT, ROOT);
  }

  // --- rotational geometry ---------------------------------------------------

  /** The rotational geometry the superblock records; a bare image has one block per cylinder. */
  function DiskOf(o: Options): Disk {
    match o.disk
    case None => Disk(o.bsize / SECTOR, o.bsize / SECTOR, 1)
    case Some((tracks, sectors)) => Disk(Mul(tracks, sectors), sectors, 1)
  }

  /** Sector `f` of a group lies on cylinder `c`, in the eighth `p` of its track, when a cylinder has `tracks` tracks
      of `sectors` sectors. */
  ghost predicate SectorAt(tracks: nat, sectors: nat, f: nat, c: nat, p: nat)
    requires 0 < tracks * sectors && 0 < sectors
  {
    c * (tracks * sectors) <= f < (c + 1) * (tracks * sectors) && p * sectors <= 8 * (f % (tracks * sectors) % sectors) < (p + 1) * sectors
  }

  /** In every accepted layout the places in the rotational tables are those of the disk geometry, and on a bare image
      those of a disk whose cylinders are one track of one block. */
  lemma PlacesAre(o: Options, f: nat)
    requires Plan(o).Ok?
    ensures var tracks, sectors := if o.disk.Some? then o.disk.value.0 else 1, if o.disk.Some? then o.disk.value.1 else o.bsize / SECTOR;
      0 < tracks * sectors && 0 < sectors && SectorAt(tracks, sectors, f, Cylinder(DiskOf(o), f), Position(DiskOf(o), f))
  {
    hide PlanGroups, Cylinder, Position;
    PlanIff(o);
    if o.disk.Some? {
      MulIsProduct(o.disk.value.0, o.disk.value.1);
      Positive(o.disk.value.0, o.disk.value.1);
    }
    Placement(DiskOf(o), f);
  }

  lemma CylinderIs(k: Disk, f: nat)
    requires 0 < k.spc && k.nspf == 1
    ensures Cylinder(k, f) == Quot(f, k.spc)
  {
    MulIsProduct(f, 1);
  }

  /** With disk geometry every fragment of a group lies on one of the group's cylinders. */
  lemma DiskCylinders(o: Options)
    requires Plan(o).Ok? && o.disk.Some?
    ensures CylindersFit(DiskOf(o), Plan(o).value.fpg)
  {
    hide Plan, Groups, Mul, Quot, Rem, Cylinder;
    PlanGroup(o);
    DiskGroups(o);
    var k, cpg := DiskOf(o), Quot(Plan(o).value.fpg, DiskOf(o).spc);
    forall f: nat | f < Mul(cpg, k.spc) ensures Cylinder(k, f) < MAXCPG {
      CylinderIs(k, f);
      Recompose(f, k.spc);
      if cpg <= Quot(f, k.spc) { MulAdd(cpg, Quot(f, k.spc) - cpg, k.spc); }
    }
  }

  lemma PlanGroup(o: Options)
    requires Plan(o).Ok?
    ensures CGFREE <= o.bsize && Groups(o).Ok? && Plan(o).value.fpg == Groups(o).value.0 && Plan(o).value.frag == o.bsize / SECTOR
  {
    hide Groups, InodeBlocks, HeaderBlock, PowerOfTwo, CeilDiv, Mul;
  }

  /** A group is a whole number of cylinders, as many as the table has room for at most. */
  lemma DiskGroups(o: Options)
    requires CGFREE <= o.bsize && Groups(o).Ok? && o.disk.Some?
    ensures var fpg, spc := Groups(o).value.0, DiskOf(o).spc; 0 < spc && fpg == Mul(Quot(fpg, spc), spc) && Quot(fpg, spc) <= MAXCPG
  {
    hide Mul, Quot, Rem;
    var spc, total := DiskOf(o).spc, o.size / SECTOR;
    var cpg := Min(Min(Quot(total, spc), MAXCPG), Quot((o.bsize - CGFREE) * 8, spc));
    Decompose(cpg, 0, spc);
  }

  /** On a bare image the tables see exactly the first 32 blocks. */
  lemma BareOnTable(o: Options, bits: seq<bool>, limit: nat)
    requires Plan(o).Ok? && o.disk.None? && limit <= |bits|
    ensures 0 < Plan(o).value.frag
    ensures var frag := Plan(o).value.frag;
      OnTable(bits, frag, 0, limit, DiskOf(o)) <==>
        forall b: nat | b + frag <= limit && Rem(b, frag) == 0 && AllFree(bits, b, frag) :: b < MAXCPG * frag
  {
    hide Plan, Ordered, Tiled, Mul, Quot, Rem, Cylinder;
    PlanGroup(o);
    PlanFrag(o);
    var frag := Plan(o).value.frag;
    forall b: nat | Rem(b, frag) == 0 ensures Cylinder(DiskOf(o), b) < MAXCPG <==> b < MAXCPG * frag { BlockCylinder(DiskOf(o), b); }
  }

  lemma PlanFrag(o: Options)
    requires Plan(o).Ok?
    ensures 0 < Plan(o).value.frag
  {
    hide Plan, Tiled, Mul, Rem;
    PlanOk(o);
  }

  lemma BlockCylinder(k: Disk, b: nat)
    requires 0 < k.spc && k.nspf == 1 && Rem(b, k.spc) == 0
    ensures Cylinder(k, b) < MAXCPG <==> b < MAXCPG * k.spc
  {
    hide Mul, Quot, Rem, Cylinder;
    CylinderIs(k, b);
    Recompose(b, k.spc);
    MulIsProduct(MAXCPG, k.spc);
    var q := Quot(b, k.spc);
    if q < MAXCPG { MulLess(q, MAXCPG, k.spc); } else { MulAdd(MAXCPG, q - MAXCPG, k.spc); }
  }

  /** What a recount of a volume with this layout writes: with disk geometry the rotational tables account for
      every free block, and with eight fragments per block the run tables for every loose fragment. */
  lemma SheetBalances(o: Options, v: Vol, cg: nat, s: Sheet)
    requires Plan(o).Ok? && Shape(v) && v.g == GeometryOf(Plan(o).value) && cg < v.g.ncg && SheetOk(v, cg, DiskOf(o), s)
    ensures o.disk.Some? ==> CylindersBalance(s)
    ensures v.g.frag <= MAXFRAG ==> RunsBalance(s)
  {
    hide Plan, DiskOf, CylindersFit, OnTable, Tame, Tabled, RunsTabled, ExactCounts, ValidGeometry, Sum, Weighted;
    FragPositive(v.g);
    FragsUpTo(v.g, cg);
    var c := v.cgs[cg];
    if o.disk.Some? {
      DiskCylinders(o);
      FewerFit(DiskOf(o), c.ndblk, v.g.fpg);
      FitOnTable(c.free, v.g.frag, c.ndblk, DiskOf(o));
    }
    if v.g.frag <= MAXFRAG { SmallBlocksTame(c.free, v.g.frag, 0, c.ndblk); }
  }

  lemma FewerFit(k: Disk, a: nat, b: nat)
    requires a <= b && CylindersFit(k, b)
    ensures CylindersFit(k, a)
  {
    hide Cylinder;
  }

  /** The recorded counts agree with the summary area, and the tables with them where they can. */
  ghost predicate SheetsBalance(o: Options, v: Vol, sheets: seq<Sheet>) {
    && |sheets| == |v.cgs|
    && forall cg | 0 <= cg < |sheets| ::
         && sheets[cg].cs == v.cgs[cg].cs
         && (o.disk.Some? ==> CylindersBalance(sheets[cg])) && (v.g.frag <= MAXFRAG ==> RunsBalance(sheets[cg]))
  }

  lemma RecountBalances(o: Options, v: Vol, sheets: seq<Sheet>)
    requires Plan(o).Ok? && Shape(v) && v.g == GeometryOf(Plan(o).value)
    requires |sheets| == v.g.ncg && forall cg | 0 <= cg < v.g.ncg :: SheetOk(v, cg, DiskOf(o), sheets[cg])
    ensures SheetsBalance(o, Recounted(v), sheets)
  {
    hide Plan, DiskOf, CylindersBalance, RunsBalance, Shape, ExactCounts, OnTable, Tame, Tabled, RunsTabled;
    forall cg | 0 <= cg < v.g.ncg ensures sheets[cg].cs == Recounted(v).cgs[cg].cs {
      SheetBalances(o, v, cg, sheets[cg]);
      assert Recounted(v).cgs[cg] == Rebuilt(v, cg);
    }
    forall cg | 0 <= cg < v.g.ncg
      ensures (o.disk.Some? ==> CylindersBalance(sheets[cg])) && (v.g.frag <= MAXFRAG ==> RunsBalance(sheets[cg]))
    {
      SheetBalances(o, v, cg, sheets[cg]);
    }
  }

  /** `format`: `image` holds the slice, zeroed where inodes go.
      An accepted layout whose group headers cannot be written stops the program, modelled as an error. */
  method FormatSlice(image: array<byte>, o: Options) returns (r: Result<Volume>, sheets: seq<Sheet>)
    requires image.Length == o.size && o.size / SECTOR < SLICE
    modifies image
    ensures r.Ok? <==> Plan(o).Ok? && Startable(Plan(o).value)
    ensures r.Ok? ==> fresh(r.value) && r.value.image == image && r.value.g == GeometryOf(Plan(o).value)
    ensures r.Ok? ==> SheetsBalance(o, r.value.View(), sheets)
    ensures r.Ok? ==> Formattable(o) && DensityMet(o, Plan(o).value)
    ensures Plan(o).Ok? && Housed(Plan(o).value) ==> r.Ok? && FsOk(r.value.View(), Bare()) && Placed(Plan(o).value, image.Length)
    ensures Plan(o).Err? ==> image[..] == old(image[..])
  {
    hide Startable, Housed, Placed, Plan, Ordered, Tiled, ValidGeometry, FsOk, BlocksOk, FilesOk, Started, Bare, Contents, DotBlock, GroupsOk, Rewritten, Shape, Recounted, Mul, NoSpace, SheetOk, SheetsBalance, DiskOf, Formattable, DensityMet;
    var plan := Plan(o);
    if plan.Err? { return Err, []; }
    var l := plan.value;
    PlanOk(o);
    PlanIff(o);
    InodeDensity(o);
    if Housed(l) { HousedStarts(l); }
    if !Startable(l) { return Err, []; }
    PlanSize(o);
    PlacedIff(l);
    PlanGeometry(l);
    InodeNumbers(l);
    var g := GeometryOf(l);
    var cgs, totals := FreshGroups(g);
    TableRoom(g);
    var vol := new Volume(g, image, cgs, totals, FreshTable(Mul(g.ncg, g.ipg)));
    ghost var v := vol.View();
    Start(v);
    StartedFacts(v);
    var stored := SetInodeContents(vol, ROOT, DotBlock(ROOT, ROOT), {ROOT});
    FirstBlock(l);
    RootFits(vol.g);
    FilesLive(vol.View(), {ROOT}, ROOT);
    Finished(v, vol.View());
    ghost var w := vol.View();
    sheets := RecomputeSummaryCounts(vol, DiskOf(o));
    RecountBalances(o, w, sheets);
    return Ok(vol), sheets;
  }

  /** The first group always has a block to give. */
  lemma FirstBlock(l: Layout)
    requires Ordered(l) && ValidGeometry(GeometryOf(l))
    ensures !NoSpace(GeometryOf(l), map[])
  {
    hide Mul, Rem, Quot, Capacity;
    var g := GeometryOf(l);
    MulZero(l.fpg);
    assert GoodLoc(g, 0, g.dblkno);
    GoodAt(g, 0, g.dblkno);
  }

  lemma RootFits(g: Geometry)
    requires ValidGeometry(g)
    ensures DIRBLK <= g.bsize
  {
    hide Capacity;
    BsizePositive(g);
  }

  lemma StartedFacts(v: Vol)
    requires Started(v)
    ensures BlocksOk(v) && FilesOk(v, {ROOT}) && ROOT < |v.inodes| && v.own == map[]
  {
    hide BlocksOk, FilesOk;
  }

  lemma PlanSize(o: Options)
    requires Plan(o).Ok?
    ensures Plan(o).value.total == o.size / SECTOR && o.size == Mul(o.size / SECTOR, SECTOR) == o.size / SECTOR * SECTOR
  {
    hide Groups, InodeBlocks, HeaderBlock, PowerOfTwo, CeilDiv, Mul;
    MulIsProduct(o.size / SECTOR, SECTOR);
  }

  lemma TableRoom(g: Geometry)
    requires ValidGeometry(g)
    ensures ROOT < Mul(g.ncg, g.ipg)
  {
    hide Capacity;
    MulLess(0, g.ncg, g.ipg);
  }
}
