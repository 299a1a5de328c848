/** `recompute_summary_counts`: what it writes, and what it leaves as it was. */
module Summary {
  import opened Arith
  import opened Geometry
  import opened VolumeState
  import opened Alloc
  import opened Inodes
  import opened Reader
  import opened Write
  import opened Dir
  import opened Directory
  import opened DirOps
  import opened InodeAlloc
  import opened Tree
  import opened Mirror
  import opened Namespace
  import opened Clean
  import opened Recount

  /** The exact counts of group `cg`. */
  ghost function ExactCounts(v: Vol, cg: nat): Csum
    requires Shape(v) && cg < v.g.ncg
  {
    GroupRange(v.g, cg);
    var c := v.cgs[cg];
    Csum(DirCount(c.iused, v.inodes, Mul(cg, v.g.ipg), v.g.ipg), FreeBlocks(c.free, v.g.frag, 0, c.ndblk),
         Clear(Reserved(c.iused, cg), v.g.ipg), Loose(c.free, v.g.frag, 0, c.ndblk))
  }

  /** The rewritten header of group `cg`. */
  ghost function Rebuilt(v: Vol, cg: nat): Cg
    requires Shape(v) && cg < v.g.ncg
  {
    var c := v.cgs[cg];
    c.(cs := ExactCounts(v, cg), irotor := if c.irotor < v.g.ipg then c.irotor else 0)
  }

  /** The whole volume after a recount. */
  ghost function Recounted(v: Vol): (w: Vol)
    requires Shape(v)
    ensures |w.cgs| == v.g.ncg && forall i | 0 <= i < v.g.ncg :: w.cgs[i] == Rebuilt(v, i)
  {
    var cgs := seq(v.g.ncg, i requires 0 <= i < v.g.ncg => Rebuilt(v, i));
    v.(cgs := cgs, totals := Total(cgs))
  }

  /** What the recount writes for one group: its entry of the summary area, its run table and its rotational tables. */
  datatype Sheet = Sheet(cs: Csum, frsum: seq<nat>, tables: Tables)

  ghost predicate SheetOk(v: Vol, cg: nat, disk: Disk, s: Sheet)
    requires Shape(v) && cg < v.g.ncg
  {
    FragPositive(v.g);
    var c := v.cgs[cg];
    && s.cs == ExactCounts(v, cg)
    && RunsTabled(c.free, v.g.frag, c.ndblk, s.frsum)
    && (Weighted(s.frsum) == s.cs.nffree <==> Tame(c.free, v.g.frag, 0, c.ndblk))
    && Tabled(c.free, v.g.frag, c.ndblk, disk, s.tables)
    && (Sum(s.tables.btot) == s.cs.nbfree <==> OnTable(c.free, v.g.frag, 0, c.ndblk, disk))
  }

  /** The tables weigh the loose fragments and add up to the free blocks on record. */
  ghost predicate RunsBalance(s: Sheet) { Weighted(s.frsum) == s.cs.nffree }
  ghost predicate CylindersBalance(s: Sheet) { Sum(s.tables.btot) == s.cs.nbfree }

  /** `recompute_summary_counts`, for groups that have been initialised. */
  method RecomputeSummaryCounts(vol: Volume, disk: Disk) returns (sheets: seq<Sheet>)
    requires Shape(vol.View())
    modifies vol
    ensures vol.View() == Recounted(old(vol.View()))
    ensures |sheets| == vol.g.ncg && forall cg | 0 <= cg < vol.g.ncg :: SheetOk(old(vol.View()), cg, disk, sheets[cg])
  {
    hide Rebuilt, Shape, Total, SheetOk;
    sheets := [];
    ghost var v := vol.View();
    var total := Csum(0, 0, 0, 0);
    ShapeCount(v);
    TotalNone();
    for cg := 0 to vol.g.ncg
      invariant |vol.cgs| == v.g.ncg && vol.View() == v.(cgs := vol.cgs)
      invariant forall i | 0 <= i < cg :: vol.cgs[i] == Rebuilt(v, i)
      invariant forall i | cg <= i < v.g.ncg :: vol.cgs[i] == v.cgs[i]
      invariant total == Total(vol.cgs[..cg])
      invariant |sheets| == cg && forall i | 0 <= i < cg :: SheetOk(v, i, disk, sheets[i])
    {
      StillShaped(v, vol.View(), cg);
      var rebuilt, sheet := RebuildGroup(vol, cg, disk);
      SameSheet(v, vol.View(), cg, disk, sheet);
      sheets := sheets + [sheet];
      TotalMore(vol.cgs[..cg], rebuilt);
      ghost var before := vol.cgs;
      vol.cgs := vol.cgs[cg := rebuilt];
      assert vol.cgs[..cg + 1] == before[..cg] + [rebuilt];
      total := Add(total, rebuilt.cs);
    }
    vol.totals := total;
    assert vol.cgs[..v.g.ncg] == vol.cgs;
    assert vol.cgs == Recounted(v).cgs;
  }

  /** `expected_cg_header` copied over the header of group `cg`. */
  method RebuildGroup(vol: Volume, cg: nat, disk: Disk) returns (r: Cg, sheet: Sheet)
    requires Shape(vol.View()) && cg < vol.g.ncg
    ensures r == Rebuilt(vol.View(), cg) && SheetOk(vol.View(), cg, disk, sheet)
  {
    hide DirCount, Clear, FreeBlocks, Loose, ValidGeometry, Tabled, OnTable, Weighted, RunsTabled, Tame, Sum;
    FragPositive(vol.g);
    var c := vol.cgs[cg];
    var ndir, nifree := SummarizeInodes(vol, cg);
    var nbfree, nffree, frsum, tables := SummarizeBlocks(c.free, vol.g.frag, c.ndblk, disk);
    sheet := Sheet(Csum(ndir, nbfree, nifree, nffree), frsum, tables);
    r := c.(cs := Csum(ndir, nbfree, nifree, nffree), irotor := if c.irotor < vol.g.ipg then c.irotor else 0);
  }

  lemma SameSheet(v: Vol, w: Vol, cg: nat, disk: Disk, s: Sheet)
    requires Shape(v) && Shape(w) && cg < v.g.ncg && w == v.(cgs := w.cgs) && w.cgs[cg] == v.cgs[cg] && SheetOk(w, cg, disk, s)
    ensures SheetOk(v, cg, disk, s)
  {
    hide ValidGeometry, DirCount, Clear, FreeBlocks, Loose, Tabled, OnTable, Weighted, RunsTabled, Tame, Sum;
  }

  lemma ShapeCount(v: Vol)
    requires Shape(v)
    ensures |v.cgs| == v.g.ncg
  {
  }

  lemma TotalNone()
    ensures Total([]) == Csum(0, 0, 0, 0)
  {
  }

  lemma FragPositive(g: Geometry)
    requires ValidGeometry(g)
    ensures 0 < g.frag
  {
  }

  lemma StillShaped(v: Vol, w: Vol, cg: nat)
    requires Shape(v) && cg < v.g.ncg && |w.cgs| == v.g.ncg && w == v.(cgs := w.cgs)
    requires forall i | 0 <= i < cg :: w.cgs[i] == Rebuilt(v, i)
    requires forall i | cg <= i < v.g.ncg :: w.cgs[i] == v.cgs[i]
    ensures Shape(w) && w.cgs[cg] == v.cgs[cg] && Rebuilt(w, cg) == Rebuilt(v, cg)
  {
    hide ValidGeometry, DirCount, Clear, FreeBlocks, Loose;
  }

  lemma TotalMore(cgs: seq<Cg>, c: Cg)
    ensures Total(cgs + [c]) == Add(Total(cgs), c.cs)
  {
    assert (cgs + [c])[..|cgs|] == cgs;
  }

  lemma RecountedShape(v: Vol)
    requires Shape(v)
    ensures Shape(Recounted(v))
  {
    hide ValidGeometry, ExactCounts;
  }

  /** A second recount changes nothing. */
  lemma RecountIdempotent(v: Vol)
    requires Shape(v)
    ensures Shape(Recounted(v)) && Recounted(Recounted(v)) == Recounted(v)
  {
    hide ValidGeometry, ExactCounts;
    RecountedShape(v);
    var w := Recounted(v);
    forall i | 0 <= i < v.g.ncg ensures Rebuilt(w, i) == Rebuilt(v, i) { RebuiltAgain(v, i); }
    assert Recounted(w).cgs == w.cgs;
  }

  lemma RebuiltAgain(v: Vol, i: nat)
    requires Shape(v) && Shape(Recounted(v)) && i < v.g.ncg
    ensures Rebuilt(Recounted(v), i) == Rebuilt(v, i)
  {
    hide ValidGeometry, DirCount, Clear, FreeBlocks, Loose;
    assert Recounted(v).cgs[i] == Rebuilt(v, i);
  }

  /** Nothing below the data area is free, so counting from zero finds the same blocks. */
  lemma {:induction false} NoFreeBelow(bits: seq<bool>, frag: nat, loc: nat, start: nat, limit: nat)
    requires 0 < frag && Rem(loc, frag) == 0 && Rem(start, frag) == 0 && loc <= start && start <= |bits|
    requires forall i | 0 <= i < start :: !bits[i]
    ensures FreeBlocks(bits, frag, loc, limit) == FreeBlocks(bits, frag, start, limit)
    decreases start - loc
  {
    if loc < start {
      AlignedApart(loc, start, frag);
      RemStep(loc, frag);
      NoFreeBelow(bits, frag, loc + frag, start, limit);
      assert !bits[loc];
      assert !AllFree(bits, loc, frag);
    }
  }

  /** Under the invariant the recount finds the free blocks already on record. */
  lemma BlocksExact(v: Vol, cg: nat)
    requires BlocksOk(v) && cg < v.g.ncg
    ensures ExactCounts(v, cg).nbfree == v.cgs[cg].cs.nbfree
  {
    hide DirCount, Clear, Loose;
    var c := v.cgs[cg];
    assert CgOk(v.g, v.own, cg, c);
    NoFreeBelow(c.free, v.g.frag, 0, v.g.dblkno, c.ndblk);
  }

  lemma InodesExact(v: Vol, cg: nat)
    requires CountsOk(v) && cg < v.g.ncg
    ensures ExactCounts(v, cg).ndir == v.cgs[cg].cs.ndir && ExactCounts(v, cg).nifree == v.cgs[cg].cs.nifree
  {
    hide DirCount, Clear, Loose, FreeBlocks, Total, ValidGeometry;
    assert GroupCounts(v, cg);
    CountsBits(v);
    if cg == 0 { assert v.cgs[0].iused[0 := true][1 := true] == v.cgs[0].iused; }
  }

  lemma {:induction false} TotalAgrees(a: seq<Cg>, b: seq<Cg>)
    requires |a| == |b| && forall i | 0 <= i < |a| :: a[i].cs.(nffree := 0) == b[i].cs.(nffree := 0)
    ensures Total(a).(nffree := 0) == Total(b).(nffree := 0)
    decreases |a|
  {
    if a != [] { TotalAgrees(a[..|a| - 1], b[..|b| - 1]); }
  }

  /** On a file system that satisfies the invariant only the loose-fragment counts can change, and a rotor that points
      nowhere. */
  lemma RecountKeeps(v: Vol)
    requires BlocksOk(v) && CountsOk(v)
    ensures forall cg | 0 <= cg < v.g.ncg && v.cgs[cg].irotor < v.g.ipg :: Recounted(v).cgs[cg] == v.cgs[cg].(cs := Recounted(v).cgs[cg].cs)
    ensures forall cg | 0 <= cg < v.g.ncg :: Recounted(v).cgs[cg].cs.(nffree := 0) == v.cgs[cg].cs.(nffree := 0)
    ensures Recounted(v).totals.(nffree := 0) == v.totals.(nffree := 0)
  {
    hide ExactCounts, GroupsOk, OwnOk, GroupCounts, Total;
    forall cg | 0 <= cg < v.g.ncg ensures Recounted(v).cgs[cg].cs.(nffree := 0) == v.cgs[cg].cs.(nffree := 0) {
      BlocksExact(v, cg);
      InodesExact(v, cg);
    }
    TotalAgrees(Recounted(v).cgs, v.cgs);
  }

  // --- the recount establishes and keeps the invariant -----------------------

  lemma LooseBound(bits: seq<bool>, frag: nat, limit: nat)
    requires 0 < frag && limit <= |bits|
    ensures Loose(bits, frag, 0, limit) <= limit
  {
    hide FreeBlocks, Loose;
    CountsPartition(bits, frag, 0, limit);
    CountAll(bits, 0, limit);
  }

  lemma {:induction false} LooseTotal(v: Vol, k: nat)
    requires Shape(v) && k <= v.g.ncg
    ensures Total(Recounted(v).cgs[..k]).nffree <= Min(v.g.dsize, CgBase(v.g, k))
    decreases k
  {
    hide Loose, DirCount, Clear, FreeBlocks, ValidGeometry, CgFrags, CgBase;
    if k != 0 {
      var w := Recounted(v);
      LooseTotal(v, k - 1);
      assert w.cgs[..k][..k - 1] == w.cgs[..k - 1];
      assert w.cgs[k - 1] == Rebuilt(v, k - 1);
      FragPositive(v.g);
      FragsUpTo(v.g, k - 1);
      LooseBound(v.cgs[k - 1].free, v.g.frag, v.cgs[k - 1].ndblk);
    }
  }

  /** Group by group the fragments add up to the slice at most. */
  lemma FragsUpTo(g: Geometry, cg: nat)
    ensures CgFrags(g, cg) <= g.fpg && Min(g.dsize, CgBase(g, cg)) + CgFrags(g, cg) <= Min(g.dsize, CgBase(g, cg + 1))
  {
    MulSucc(cg, g.fpg);
  }

  lemma RecountBlocks(v: Vol)
    requires BlocksOk(v)
    ensures BlocksOk(Recounted(v))
  {
    hide ExactCounts, Total;
    var w := Recounted(v);
    RecountedShape(v);
    forall cg | 0 <= cg < v.g.ncg ensures CgOk(w.g, w.own, cg, w.cgs[cg]) {
      BlocksExact(v, cg);
      assert CgOk(v.g, v.own, cg, v.cgs[cg]);
    }
  }

  /** The recount makes every inode count exact, whatever was on record before. */
  lemma RecountCounts(v: Vol)
    requires Shape(v) && v.g.dsize < I31 && v.cgs[0].iused[0] && v.cgs[0].iused[1]
    ensures CountsOk(Recounted(v))
  {
    hide Total, DirCount, Clear, FreeBlocks, Loose;
    var w := Recounted(v);
    RecountedShape(v);
    LooseTotal(v, v.g.ncg);
    assert w.cgs[..v.g.ncg] == w.cgs;
    assert v.cgs[0].iused[0 := true][1 := true] == v.cgs[0].iused;
    forall cg | 0 <= cg < v.g.ncg ensures GroupCounts(w, cg) {
      assert w.cgs[cg] == Rebuilt(v, cg);
    }
    assert w.cgs[0] == Rebuilt(v, 0);
  }

  /** Summaries are no part of what files, directories and names say. */
  lemma SummariesIrrelevant(v: Vol, w: Vol, t: Tree)
    requires FsOk(v, t) && BlocksOk(w) && CountsOk(w) && w == v.(cgs := w.cgs, totals := w.totals)
    requires |w.cgs| == |v.cgs| && forall i | 0 <= i < |v.cgs| :: w.cgs[i].iused == v.cgs[i].iused
    ensures FsOk(w, t)
  {
    hide BlocksOk, CountsOk, TreeOk, InodeOk, Footprint, Contents, DirTiled, Lists, Live, Used;
    CountsShape(w);
    forall n: nat ensures Used(w, n) == Used(v, n) { SameBits(v, w, n); }
    forall n | n in t.kinds ensures InodeOk(w, n) && Footprint(w, n) == Footprint(v, n) { SameInode(v, w, t, n); }
    SameDirs(v, w, t);
  }

  lemma SameBits(v: Vol, w: Vol, n: nat)
    requires Shape(v) && Shape(w) && w == v.(cgs := w.cgs, totals := w.totals)
    requires forall i | 0 <= i < |v.cgs| :: w.cgs[i].iused == v.cgs[i].iused
    ensures Used(w, n) == Used(v, n)
  {
    hide ValidGeometry;
  }

  lemma SameInode(v: Vol, w: Vol, t: Tree, n: nat)
    requires FsOk(v, t) && n in t.kinds && w == v.(cgs := w.cgs, totals := w.totals)
    ensures 0 < v.g.bsize && 0 < v.g.fsize && n < |v.inodes| && InodeOk(w, n) && Footprint(w, n) == Footprint(v, n)
  {
    hide FsOk, DataBlocks, PtrBlocks, Claimed, Readable, ValidGeometry;
    LiveInode(v, t, n);
  }

  lemma SameDirs(v: Vol, w: Vol, t: Tree)
    requires FsOk(v, t) && w == v.(cgs := w.cgs, totals := w.totals)
    ensures DirsMatch(w, t)
  {
    hide Sound, CountsOk, TableOk, BytesMatch, LinksMatch, TreeOk, Contents, DirTiled, Live, Lists;
    forall d | d in t.parents ensures d in t.kinds && IsDir(w, d) && Lists(Listing(w, d), t, d) {
      DirKept(v, w, d);
    }
  }

  /** `recompute_summary_counts` on a consistent file system: still consistent, same files and names. */
  lemma RecountFsOk(v: Vol, t: Tree)
    requires FsOk(v, t) && v.g.dsize < I31
    ensures Shape(v) && FsOk(Recounted(v), t)
  {
    hide FsOk, BlocksOk, CountsOk, FilesOk, ExactCounts, ValidGeometry;
    FsShape(v, t);
    CountsBits(v);
    RecountBlocks(v);
    RecountCounts(v);
    SummariesIrrelevant(v, Recounted(v), t);
  }

  // --- loose fragments between recounts --------------------------------------

  /** Fragments of owned blocks that their owners do not take, from the aligned position `loc` of a group on,
      and the fragments behind its last whole block. */
  ghost function Slack(g: Geometry, own: map<nat, Claim>, cg: nat, loc: nat): int
    requires ValidGeometry(g)
    decreases CgFrags(g, cg) - loc
  {
    FragPositive(g);
    var b := CgBase(g, cg) + loc;
    if CgFrags(g, cg) < loc + g.frag then Max(CgFrags(g, cg) - loc, 0)
    else (if b in own then g.frag - own[b].frags else 0) + Slack(g, own, cg, loc + g.frag)
  }

  /** The free fragments of one owned block. */
  lemma OwnedLoose(g: Geometry, own: map<nat, Claim>, cg: nat, c: Cg, loc: nat)
    requires ValidGeometry(g) && OwnOk(g, own) && CgOk(g, own, cg, c) && GoodLoc(g, cg, loc) && CgBase(g, cg) + loc in own
    ensures loc + g.frag <= |c.free| && CountSet(c.free, loc, loc + g.frag) == g.frag - own[CgBase(g, cg) + loc].frags
  {
    hide Rem, Mul, Taken, CountSet, Capacity, FreeBlocks;
    var mid := loc + own[CgBase(g, cg) + loc].frags;
    forall f | loc <= f < loc + g.frag ensures c.free[f] <==> mid <= f { TakenAt(g, own, cg, loc, f); }
    CountSplit(c.free, loc, mid, loc + g.frag);
    CountAll(c.free, loc, mid);
    CountAll(c.free, mid, loc + g.frag);
  }

  /** Behind the last whole block nothing can be owned. */
  lemma TailLoose(g: Geometry, own: map<nat, Claim>, cg: nat, c: Cg, loc: nat)
    requires ValidGeometry(g) && OwnOk(g, own) && CgOk(g, own, cg, c) && cg < g.ncg
    requires Rem(loc, g.frag) == 0 && g.dblkno <= loc <= CgFrags(g, cg) < loc + g.frag
    ensures CgFrags(g, cg) <= |c.free| && CountSet(c.free, loc, CgFrags(g, cg)) == CgFrags(g, cg) - loc
  {
    hide Rem, Mul, CountSet, Capacity, FreeBlocks;
    forall f | loc <= f < CgFrags(g, cg) ensures c.free[f] {
      RemOffset(loc, f - loc, g.frag);
      NotOwned(g, own, cg, loc);
    }
    CountAll(c.free, loc, CgFrags(g, cg));
  }

  lemma NotOwned(g: Geometry, own: map<nat, Claim>, cg: nat, loc: nat)
    requires ValidGeometry(g) && OwnOk(g, own) && cg < g.ncg && loc < CgFrags(g, cg) < loc + g.frag
    ensures CgBase(g, cg) + loc !in own
  {
    hide Rem, Quot, Mul, Capacity;
    Decompose(cg, loc, g.fpg);
  }

  lemma {:induction false} LooseFrom(g: Geometry, own: map<nat, Claim>, cg: nat, c: Cg, loc: nat)
    requires ValidGeometry(g) && OwnOk(g, own) && CgOk(g, own, cg, c) && cg < g.ncg && Rem(loc, g.frag) == 0 && g.dblkno <= loc
    ensures 0 < g.frag && c.ndblk <= |c.free| && Loose(c.free, g.frag, loc, c.ndblk) == Slack(g, own, cg, loc)
    decreases c.ndblk - loc
  {
    hide Rem, Mul, CountSet, FreeBlocks, CgBase;
    FragPositive(g);
    FragsUpTo(g, cg);
    if loc + g.frag <= c.ndblk {
      RemStep(loc, g.frag);
      LooseFrom(g, own, cg, c, loc + g.frag);
      FreeIffUnowned(g, own, cg, c, loc);
      if CgBase(g, cg) + loc in own { OwnedLoose(g, own, cg, c, loc); }
    } else if loc <= c.ndblk {
      TailLoose(g, own, cg, c, loc);
    }
  }

  lemma {:induction false} NoLooseBelow(bits: seq<bool>, frag: nat, loc: nat, start: nat, limit: nat)
    requires 0 < frag && Rem(loc, frag) == 0 && Rem(start, frag) == 0 && loc <= start && limit <= |bits|
    requires forall i | 0 <= i < Min(start, |bits|) :: !bits[i]
    ensures Loose(bits, frag, loc, limit) == Loose(bits, frag, start, limit)
    decreases start - loc
  {
    hide Rem, CountSet;
    if loc < start {
      AlignedApart(loc, start, frag);
      RemStep(loc, frag);
      NoLooseBelow(bits, frag, loc + frag, start, limit);
      if loc < limit { CountAll(bits, loc, Min(loc + frag, limit)); }
    }
  }

  /** The exact loose count of a group is what the owners of its blocks leave over. */
  lemma LooseIsSlack(v: Vol, cg: nat)
    requires BlocksOk(v) && cg < v.g.ncg
    ensures Shape(v) && ExactCounts(v, cg).nffree == Slack(v.g, v.own, cg, v.g.dblkno)
  {
    hide DirCount, Clear, Loose, FreeBlocks, Slack, Rem, Mul;
    var c := v.cgs[cg];
    assert CgOk(v.g, v.own, cg, c);
    LooseFrom(v.g, v.own, cg, c, v.g.dblkno);
    Decompose(0, 0, v.g.frag);
    MulZero(v.g.frag);
    NoLooseBelow(c.free, v.g.frag, 0, v.g.dblkno, c.ndblk);
  }

  /** Rewriting an inode leaves the loose counts on record alone, so each falls behind by the change in slack. */
  lemma LooseLag(v: Vol, w: Vol, n: nat, cg: nat)
    requires BlocksOk(v) && BlocksOk(w) && Rewritten(v, w, n) && cg < v.g.ncg
    ensures Shape(v) && Shape(w) && w.g == v.g && w.totals.nffree == v.totals.nffree
    ensures ExactCounts(w, cg).nffree - w.cgs[cg].cs.nffree == ExactCounts(v, cg).nffree - v.cgs[cg].cs.nffree
              + Slack(v.g, w.own, cg, v.g.dblkno) - Slack(v.g, v.own, cg, v.g.dblkno)
  {
    hide Rewritten, BlocksOk, Slack, ExactCounts;
    SideFacts(v, w, n);
    LooseIsSlack(v, cg);
    LooseIsSlack(w, cg);
    assert w.cgs[cg].cs.(nbfree := 0) == v.cgs[cg].cs.(nbfree := 0);
  }

  lemma {:induction false} CountOutside(bits: seq<bool>, x: nat, n: nat, val: bool, lo: nat, hi: nat)
    requires lo <= hi <= |bits| && (hi <= x || x + n <= lo)
    ensures CountSet(Mark(bits, x, n, val), lo, hi) == CountSet(bits, lo, hi)
    decreases hi - lo
  {
    if lo < hi { CountOutside(bits, x, n, val, lo, hi - 1); }
  }

  /** Taking `n` fragments of a free block leaves the rest of it loose. */
  lemma {:induction false} LooseAfterTake(bits: seq<bool>, frag: nat, loc: nat, limit: nat, x: nat, n: nat)
    requires 0 < frag && 1 <= n <= frag && Rem(loc, frag) == 0 && Rem(x, frag) == 0 && limit <= |bits|
    requires loc <= x && x + frag <= limit && AllFree(bits, x, frag)
    ensures Loose(Mark(bits, x, n, false), frag, loc, limit) == Loose(bits, frag, loc, limit) + frag - n
    decreases limit - loc
  {
    hide Rem, CountSet;
    var bits' := Mark(bits, x, n, false);
    AlignedApart(loc, x, frag);
    RemStep(loc, frag);
    if loc == x {
      TakenBlock(bits, frag, x, n);
      LooseBeyond(bits, frag, loc + frag, limit, x, n);
    } else {
      CountOutside(bits, x, n, false, loc, loc + frag);
      assert AllFree(bits', loc, frag) == AllFree(bits, loc, frag);
      LooseAfterTake(bits, frag, loc + frag, limit, x, n);
    }
  }

  lemma TakenBlock(bits: seq<bool>, frag: nat, x: nat, n: nat)
    requires 1 <= n <= frag && x + frag <= |bits| && AllFree(bits, x, frag)
    ensures var bits' := Mark(bits, x, n, false); !AllFree(bits', x, frag) && CountSet(bits', x, x + frag) == frag - n
  {
    var bits' := Mark(bits, x, n, false);
    assert !bits'[x];
    CountSplit(bits', x, x + n, x + frag);
    CountAll(bits', x, x + n);
    CountAll(bits', x + n, x + frag);
  }

  lemma {:induction false} LooseBeyond(bits: seq<bool>, frag: nat, loc: nat, limit: nat, x: nat, n: nat)
    requires 0 < frag && n <= frag && x + frag <= loc && limit <= |bits|
    ensures Loose(Mark(bits, x, n, false), frag, loc, limit) == Loose(bits, frag, loc, limit)
    decreases limit - loc
  {
    hide CountSet;
    var bits' := Mark(bits, x, n, false);
    if loc + frag <= limit {
      CountOutside(bits, x, n, false, loc, loc + frag);
      assert AllFree(bits', loc, frag) == AllFree(bits, loc, frag);
      LooseBeyond(bits, frag, loc + frag, limit, x, n);
    } else if loc <= limit {
      CountOutside(bits, x, n, false, loc, limit);
    }
  }

  /** An allocation leaves the record behind by the fragments of the block it does not take:
      a count that was exact stays exact exactly when the whole block is taken. */
  lemma LooseFallsBehind(v: Vol, cg: nat, loc: nat, k: Claim)
    requires BlocksOk(v) && GoodLoc(v.g, cg, loc) && CgBase(v.g, cg) + loc !in v.own && 1 <= k.frags <= v.g.frag
    ensures 0 < v.cgs[cg].cs.nbfree && 0 < v.totals.nbfree
    ensures var w := Take(v, cg, loc, k);
      && Shape(w) && w.cgs[cg].cs.nffree == v.cgs[cg].cs.nffree
      && ExactCounts(w, cg).nffree == ExactCounts(v, cg).nffree + v.g.frag - k.frags
      && (v.cgs[cg].cs.nffree == ExactCounts(v, cg).nffree ==>
            (w.cgs[cg].cs.nffree == ExactCounts(w, cg).nffree <==> k.frags == v.g.frag))
  {
    hide BlocksOk, CgOk, Loose, FreeBlocks, DirCount, Clear, OwnOk;
    BlocksShape(v);
    TakeKeeps(v, cg, loc, k);
    var w := Take(v, cg, loc, k);
    BlocksShape(w);
    assert CgOk(v.g, v.own, cg, v.cgs[cg]);
    FreeIffUnowned(v.g, v.own, cg, v.cgs[cg], loc);
    LooseAfterTake(v.cgs[cg].free, v.g.frag, 0, v.cgs[cg].ndblk, loc, k.frags);
  }
}
