/** Where the formatter puts things: the layout arithmetic and what it guarantees. */
module Layout {
  import opened Arith
  import opened Geometry
  import opened Codec
  import opened VolumeState
  import opened Dir

  const DINODE: nat := 128
  const MAXIPG: nat := 2048
  const SUPER: nat := 8192
  const CGUSED: nat := 724
  const CGMAGIC: nat := 980
  const CGFREE: nat := 984
  const CSUM: nat := 16

  /** The superblock a layout writes. */
  function GeometryOf(l: Layout): Geometry {
    Geometry(l.bsize, SECTOR, l.frag, 1, l.total, l.fpg, l.ncg, l.ipg, l.dblkno, l.bsize / 4)
  }

  /** The options that shape a file system; `disk` is tracks per cylinder and sectors per track. */
  datatype Options = Options(size: nat, bsize: nat, bytesPerInode: nat, disk: Option<(nat, nat)>)

  datatype Layout = Layout(
    bsize: nat, frag: nat, total: nat, ncg: nat, fpg: nat,
    csaddr: nat, csfrags: nat, cblkno: nat, iblkno: nat, iblocks: nat, dblkno: nat, ipg: nat, inopb: nat)

  function CeilDiv(a: nat, d: nat): nat
    requires 0 < d
  {
    Quot(a + d - 1, d)
  }

  predicate PowerOfTwo(n: nat) { n == 1 || (n > 0 && n % 2 == 0 && PowerOfTwo(n / 2)) }

  /** Fragments per group and number of groups, from the disk geometry or for a bare image. */
  function Groups(o: Options): Result<(nat, nat)>
    requires CGFREE <= o.bsize
  {
    var total := o.size / SECTOR;
    match o.disk
    case None => Ok((total, 1))
    case Some((tracks, sectors)) =>
      if tracks == 0 || sectors == 0 then Err
      else
        var spc := Mul(tracks, sectors);
        if spc == 0 || Rem(total, spc) != 0 || Quot(total, spc) == 0 then Err
        else
          var most := Quot((o.bsize - CGFREE) * 8, spc);
          if most == 0 then Err
          else
            var cpg := Min(Min(Quot(total, spc), MAXCPG), most);
            Ok((Mul(cpg, spc), CeilDiv(Quot(total, spc), cpg)))
  }

  /** `compute_inode_block_count`: enough inode blocks for the requested density, as far as there is room. */
  function InodeBlocks(o: Options, inopb: nat, ncg: nat, fpg: nat, frag: nat, first: nat): Result<nat>
    requires 0 < inopb && 0 < ncg && 0 < frag
  {
    if o.bytesPerInode == 0 then Err
    else
      var wanted := Max(CeilDiv(Max(CeilDiv(o.size, o.bytesPerInode), 1), ncg), 1);
      var blocks := Max(CeilDiv(wanted, inopb), 1);
      var room := Quot(fpg, frag) - (first + 1);
      if room <= 0 then Err
      else
        var capped := Min(blocks, room);
        var count := if Mul(capped, inopb) > MAXIPG then Quot(MAXIPG, inopb) else capped;
        if count == 0 then Err else Ok(count)
  }

  /** The block, at least the fifth, where group headers go, clear of the summary area. */
  function HeaderBlock(frag: nat, ncg: nat): nat
    requires 0 < frag
  {
    Max(5, CeilDiv(4 * frag + CeilDiv(ncg * CSUM, SECTOR), frag))
  }

  /** The layout of one group, given the number of groups and their length. */
  function PlanGroups(o: Options, frag: nat, fpg: nat, ncg: nat): Result<Layout>
    requires 0 < frag && 0 < ncg && DINODE <= o.bsize
  {
    var header := HeaderBlock(frag, ncg);
    var inopb := o.bsize / DINODE;
    var count := InodeBlocks(o, inopb, ncg, fpg, frag, header + 1);
    if count.Err? then Err
    else
      var dblkno := Mul(header + 1 + count.value, frag);
      if o.size < (dblkno + frag) * SECTOR then Err
      else Ok(Layout(o.bsize, frag, o.size / SECTOR, ncg, fpg, 4 * frag, CeilDiv(ncg * CSUM, SECTOR),
                     Mul(header, frag), Mul(header + 1, frag), count.value, dblkno, Mul(count.value, inopb), inopb))
  }

  /** The layout part of `format`. */
  function Plan(o: Options): Result<Layout> {
    if o.size == 0 || o.size % SECTOR != 0 || o.bsize < 4096 || o.bsize > SUPER || o.bsize % SECTOR != 0 then Err
    else if !PowerOfTwo(o.bsize / SECTOR) then Err
    else
      var groups := Groups(o);
      if groups.Err? || groups.value.1 == 0 then Err
      else PlanGroups(o, o.bsize / SECTOR, groups.value.0, groups.value.1)
  }

  // --- what a plan guarantees ------------------------------------------------

  /** Everything in one group's metadata fits, in order, with room for data behind it. */
  ghost predicate Ordered(l: Layout) {
    && (l.frag == 8 || l.frag == 16) && l.bsize == l.frag * SECTOR && l.inopb == 4 * l.frag
    && 2 * SUPER <= l.csaddr * SECTOR && l.csaddr + l.csfrags <= l.cblkno && l.ncg * CSUM <= l.csfrags * SECTOR
    && l.cblkno + l.frag == l.iblkno && l.dblkno == l.iblkno + Mul(l.iblocks, l.frag) && l.dblkno + l.frag <= l.fpg
    && l.dblkno + l.frag <= l.total
    && 0 < l.iblocks && l.ipg == Mul(l.iblocks, l.inopb) <= MAXIPG && Rem(l.dblkno, l.frag) == 0
    && 0 < l.ncg && l.fpg <= l.total
  }

  /** The groups cover the slice, and only the last may be cut short. */
  ghost predicate Tiled(l: Layout) {
    0 < l.ncg && Mul(l.ncg - 1, l.fpg) < l.total <= Mul(l.ncg, l.fpg)
  }

  lemma FragIs(frag: nat)
    requires 8 <= frag <= 16 && PowerOfTwo(frag)
    ensures frag == 8 || frag == 16
  {
    assert frag % 2 == 0 && PowerOfTwo(frag / 2);
    var h := frag / 2;
    assert 4 <= h <= 8 && (h % 2 == 0 && PowerOfTwo(h / 2));
    var q := h / 2;
    assert 2 <= q <= 4 && (q % 2 == 0 && PowerOfTwo(q / 2));
  }

  lemma CeilCovers(a: nat, d: nat)
    requires 0 < d
    ensures a <= Mul(CeilDiv(a, d), d) < a + d
  {
    Recompose(a + d - 1, d);
  }

  lemma CeilIs(a: nat, d: nat)
    requires 0 < d
    ensures a <= CeilDiv(a, d) * d < a + d
  {
    CeilCovers(a, d);
    MulIsProduct(CeilDiv(a, d), d);
  }

  /** A group is as long as its cylinders, and the groups cover the slice. */
  lemma GroupsCover(o: Options)
    requires CGFREE <= o.bsize && 0 < o.size / SECTOR && Groups(o).Ok?
    ensures var (fpg, ncg) := Groups(o).value; var total := o.size / SECTOR;
      0 < ncg && fpg <= total && Mul(ncg - 1, fpg) < total <= Mul(ncg, fpg) && (o.disk.Some? ==> fpg <= (o.bsize - CGFREE) * 8)
  {
    hide Mul, Quot, Rem;
    var total := o.size / SECTOR;
    if o.disk.None? {
      MulZero(total);
      MulSucc(0, total);
    } else {
      var spc := Mul(o.disk.value.0, o.disk.value.1);
      var room := (o.bsize - CGFREE) * 8;
      Recompose(total, spc);
      var cpg := Min(Min(Quot(total, spc), MAXCPG), Quot(room, spc));
      CylindersCover(total, spc, Quot(total, spc), cpg);
      Recompose(room, spc);
      MulAdd(cpg, Quot(room, spc) - cpg, spc);
    }
  }

  lemma CylindersCover(total: nat, spc: nat, ncyl: nat, cpg: nat)
    requires 0 < spc && 0 < cpg <= ncyl && total == Mul(ncyl, spc)
    ensures var fpg, ncg := Mul(cpg, spc), CeilDiv(ncyl, cpg);
      0 < ncg && fpg <= total && Mul(ncg - 1, fpg) < total <= Mul(ncg, fpg)
  {
    var fpg, ncg := Mul(cpg, spc), CeilDiv(ncyl, cpg);
    CeilIs(ncyl, cpg);
    MulAdd(cpg, ncyl - cpg, spc);
    MulIsProduct(cpg, spc);
    MulIsProduct(ncyl, spc);
    MulIsProduct(ncg, fpg);
    if ncg == 0 { assert false; }
    MulIsProduct(ncg - 1, fpg);
    Scaled(ncg, cpg, ncyl, spc);
  }

  lemma Scaled(ncg: nat, cpg: nat, ncyl: nat, spc: nat)
    requires 0 < spc && 0 < ncg && ncyl <= ncg * cpg < ncyl + cpg
    ensures (ncg - 1) * (cpg * spc) < ncyl * spc <= ncg * (cpg * spc)
  {
    assert ncg * (cpg * spc) == (ncg * cpg) * spc;
    assert (ncg - 1) * (cpg * spc) == (ncg * cpg - cpg) * spc;
    Monotone(ncyl, ncg * cpg, spc);
    Monotone(ncg * cpg - cpg + 1, ncyl, spc);
    assert (ncg * cpg - cpg + 1) * spc == (ncg * cpg - cpg) * spc + spc;
  }

  lemma Monotone(a: int, b: int, c: nat)
    requires a <= b
    ensures a * c <= b * c
  {
    assert (b - a) * c >= 0;
  }

  lemma InodeRoom(o: Options, inopb: nat, ncg: nat, fpg: nat, frag: nat, first: nat)
    requires (inopb == 32 || inopb == 64) && 0 < ncg && 0 < frag
    requires InodeBlocks(o, inopb, ncg, fpg, frag, first).Ok?
    ensures var count := InodeBlocks(o, inopb, ncg, fpg, frag, first).value;
      0 < count && Mul(count, inopb) <= MAXIPG && first + 1 + count <= Quot(fpg, frag)
  {
    hide Mul, Quot;
    var wanted := Max(CeilDiv(Max(CeilDiv(o.size, o.bytesPerInode), 1), ncg), 1);
    var capped := Min(Max(CeilDiv(wanted, inopb), 1), Quot(fpg, frag) - (first + 1));
    var count := InodeBlocks(o, inopb, ncg, fpg, frag, first).value;
    if Mul(capped, inopb) > MAXIPG {
      QuotIsDivision(MAXIPG, inopb);
      MulIsProduct(count, inopb);
      MulIsProduct(capped, inopb);
      assert count <= capped;
    }
  }

  /** Whatever the options, an accepted layout is ordered and its groups tile the slice. */
  lemma PlanOk(o: Options)
    requires Plan(o).Ok?
    ensures Ordered(Plan(o).value) && Tiled(Plan(o).value)
    ensures o.disk.Some? ==> Plan(o).value.fpg <= (o.bsize - CGFREE) * 8
  {
    hide Mul, Quot, Rem, PowerOfTwo, Groups, PlanGroups, Ordered;
    var frag := o.bsize / SECTOR;
    FragIs(frag);
    GroupsCover(o);
    PlanGroupsOk(o, frag, Groups(o).value.0, Groups(o).value.1);
  }

  lemma PlanGroupsOk(o: Options, frag: nat, fpg: nat, ncg: nat)
    requires (frag == 8 || frag == 16) && o.bsize == frag * SECTOR && o.size % SECTOR == 0 && 0 < ncg && fpg <= o.size / SECTOR
    requires PlanGroups(o, frag, fpg, ncg).Ok?
    ensures var l := PlanGroups(o, frag, fpg, ncg).value;
      Ordered(l) && l.ncg == ncg && l.fpg == fpg && l.total == o.size / SECTOR && l.bsize == o.bsize
  {
    hide Mul, Quot, Rem, InodeBlocks, HeaderBlock;
    var header, inopb := HeaderBlock(frag, ncg), o.bsize / DINODE;
    var count := InodeBlocks(o, inopb, ncg, fpg, frag, header + 1).value;
    InodeRoom(o, inopb, ncg, fpg, frag, header + 1);
    HeaderRoom(frag, ncg);
    MulSucc(header, frag);
    MulAdd(header + 1, count, frag);
    DataRoom(fpg, frag, header + 1 + count);
    Decompose(header + 1 + count, 0, frag);
  }

  lemma HeaderRoom(frag: nat, ncg: nat)
    requires 0 < frag
    ensures 4 * frag + CeilDiv(ncg * CSUM, SECTOR) <= Mul(HeaderBlock(frag, ncg), frag)
    ensures ncg * CSUM <= CeilDiv(ncg * CSUM, SECTOR) * SECTOR
  {
    hide Mul, Quot;
    var want := 4 * frag + CeilDiv(ncg * CSUM, SECTOR);
    CeilIs(ncg * CSUM, SECTOR);
    CeilCovers(want, frag);
    MulAdd(CeilDiv(want, frag), HeaderBlock(frag, ncg) - CeilDiv(want, frag), frag);
  }

  lemma DataRoom(fpg: nat, frag: nat, k: nat)
    requires 0 < frag && k + 1 <= Quot(fpg, frag)
    ensures Mul(k, frag) + frag <= fpg
  {
    hide Mul, Quot;
    Recompose(fpg, frag);
    MulLess(k, Quot(fpg, frag), frag);
  }

  // --- what the options ask for ----------------------------------------------

  /** Enough inodes for one per `bytesPerInode` bytes of slice, in as few inode blocks as that takes;
      fewer only when the group or its inode map has no room for another inode block. */
  ghost predicate DensityMet(o: Options, l: Layout) {
    && 0 < o.bytesPerInode
    && (o.size <= l.ncg * l.ipg * o.bytesPerInode || l.fpg < l.dblkno + 2 * l.frag || MAXIPG < (l.iblocks + 1) * l.inopb)
    && (l.iblocks == 1 || l.ncg * ((l.iblocks - 1) * l.inopb) * o.bytesPerInode < o.size)
  }

  lemma InodeDensity(o: Options)
    requires Plan(o).Ok?
    ensures DensityMet(o, Plan(o).value)
  {
    hide Mul, Quot, Rem, PowerOfTwo, Groups, PlanGroups, Ordered, DensityMet;
    var frag := o.bsize / SECTOR;
    FragIs(frag);
    GroupsCover(o);
    GroupDensity(o, frag, Groups(o).value.0, Groups(o).value.1);
  }

  lemma GroupDensity(o: Options, frag: nat, fpg: nat, ncg: nat)
    requires (frag == 8 || frag == 16) && o.bsize == frag * SECTOR && 0 < ncg && PlanGroups(o, frag, fpg, ncg).Ok?
    ensures DensityMet(o, PlanGroups(o, frag, fpg, ncg).value)
  {
    hide Mul, Quot, Rem, HeaderBlock, CeilDiv, DensityMet;
    var header, inopb := HeaderBlock(frag, ncg), o.bsize / DINODE;
    var l := PlanGroups(o, frag, fpg, ncg).value;
    var inodes := Max(CeilDiv(o.size, o.bytesPerInode), 1);
    var wanted := Max(CeilDiv(inodes, ncg), 1);
    var blocks := Max(CeilDiv(wanted, inopb), 1);
    MulIsProduct(l.iblocks, inopb);
    MulIsProduct(Min(blocks, Quot(fpg, frag) - (header + 2)), inopb);
    QuotIsDivision(MAXIPG, inopb);
    if l.iblocks == Quot(fpg, frag) - (header + 2) { NoRoomLeft(fpg, frag, header + 2, l.iblocks); }
    Density(o, l, inodes, wanted, blocks);
  }

  lemma Density(o: Options, l: Layout, inodes: nat, wanted: nat, blocks: nat)
    requires 0 < o.bytesPerInode && 0 < l.ncg && 0 < l.inopb && 0 < l.iblocks <= blocks && l.ipg == l.iblocks * l.inopb
    requires inodes == Max(CeilDiv(o.size, o.bytesPerInode), 1) && wanted == Max(CeilDiv(inodes, l.ncg), 1)
    requires blocks == Max(CeilDiv(wanted, l.inopb), 1)
    requires l.iblocks == blocks || l.fpg < l.dblkno + 2 * l.frag || MAXIPG < (l.iblocks + 1) * l.inopb
    ensures DensityMet(o, l)
  {
    hide Mul, CeilDiv;
    AtLeastOne(o.size, o.bytesPerInode, inodes);
    AtLeastOne(inodes, l.ncg, wanted);
    AtLeastOne(wanted, l.inopb, blocks);
    if l.iblocks == blocks { Enough(o.size, o.bytesPerInode, inodes, l.ncg, wanted, l.inopb, blocks); }
    if l.iblocks > 1 { OneLess(o.size, o.bytesPerInode, inodes, l.ncg, wanted, l.inopb, blocks, l.iblocks); }
  }

  lemma AtLeastOne(a: nat, d: nat, q: nat)
    requires 0 < d && q == Max(CeilDiv(a, d), 1)
    ensures a <= q * d && (q > 1 ==> (q - 1) * d < a)
  {
    hide CeilDiv;
    CeilIs(a, d);
    if CeilDiv(a, d) == 0 { assert a <= 0; }
  }

  lemma Enough(size: nat, bpi: nat, inodes: nat, ncg: nat, wanted: nat, inopb: nat, blocks: nat)
    requires size <= inodes * bpi && inodes <= wanted * ncg && wanted <= blocks * inopb
    ensures size <= ncg * (blocks * inopb) * bpi
  {
    Monotone(wanted, blocks * inopb, ncg);
    Monotone(inodes, blocks * inopb * ncg, bpi);
  }

  lemma OneLess(size: nat, bpi: nat, inodes: nat, ncg: nat, wanted: nat, inopb: nat, blocks: nat, count: nat)
    requires 0 < inopb && 0 < ncg && 0 < bpi && 1 < count <= blocks
    requires blocks > 1 ==> (blocks - 1) * inopb < wanted
    requires wanted > 1 ==> (wanted - 1) * ncg < inodes
    requires inodes > 1 ==> (inodes - 1) * bpi < size
    ensures ncg * ((count - 1) * inopb) * bpi < size
  {
    Monotone(count - 1, blocks - 1, inopb);
    Monotone(1, count - 1, inopb);
    var x := (count - 1) * inopb;
    Monotone(x, wanted - 1, ncg);
    Monotone(1, x, ncg);
    Monotone(x * ncg, inodes - 1, bpi);
  }

  lemma NoRoomLeft(fpg: nat, frag: nat, first: nat, room: nat)
    requires 0 < frag && 0 < first && first + room == Quot(fpg, frag)
    ensures fpg < Mul(first - 1 + room, frag) + 2 * frag
  {
    hide Mul, Quot, Rem;
    Recompose(fpg, frag);
    MulSucc(first - 1 + room, frag);
  }

  /** A bare image of 16 MiB that asks for an inode per 512 bytes gets one per 8192. */
  lemma DensityMissed()
    ensures var p := Plan(Options(0x100_0000, 4096, 512, None)); p.Ok? && p.value.ncg * p.value.ipg == 2048
  {
    hide Mul, InodeBlocks, HeaderBlock, CeilDiv, PowerOfTwo, Quot;
    var o := Options(0x100_0000, 4096, 512, None);
    DenseInodes(o);
    MulIsProduct(6, 8);
    MulIsProduct(5, 8);
    MulIsProduct(70, 8);
    MulIsProduct(64, 32);
  }

  lemma DenseInodes(o: Options)
    requires o == Options(0x100_0000, 4096, 512, None)
    ensures HeaderBlock(8, 1) == 5 && PowerOfTwo(8) && InodeBlocks(o, 32, 1, 0x8000, 8, 6) == Ok(64)
  {
    hide Mul, Quot, Rem;
    QuotIsDivision(16 + 512 - 1, 512);
    QuotIsDivision(33 + 8 - 1, 8);
    assert PowerOfTwo(1) && PowerOfTwo(2) && PowerOfTwo(4);
    QuotIsDivision(0x100_0000 + 512 - 1, 512);
    QuotIsDivision(32768 + 1 - 1, 1);
    QuotIsDivision(32768 + 32 - 1, 32);
    QuotIsDivision(0x8000, 8);
    QuotIsDivision(2048, 32);
    MulIsProduct(1024, 32);
  }

  /** Groups of as many cylinders as the tables, the slice and the free map allow, and as few of them as hold the slice;
      on a bare image one group for all. */
  ghost predicate GroupsFill(o: Options, fpg: nat, ncg: nat) {
    var total := o.size / SECTOR;
    match o.disk
    case None => fpg == total && ncg == 1
    case Some((tracks, sectors)) => exists cpg: nat :: CylindersFill(o.bsize, total, tracks * sectors, cpg, fpg, ncg)
  }

  ghost predicate CylindersFill(bsize: nat, total: nat, spc: nat, cpg: nat, fpg: nat, ncg: nat) {
    && 0 < cpg <= MAXCPG && fpg == cpg * spc <= total && fpg <= (bsize - CGFREE) * 8
    && (cpg == MAXCPG || total < (cpg + 1) * spc || (bsize - CGFREE) * 8 < (cpg + 1) * spc)
    && (ncg - 1) * fpg < total <= ncg * fpg
  }

  lemma GroupsAreFull(o: Options)
    requires CGFREE <= o.bsize && 0 < o.size / SECTOR && Groups(o).Ok?
    ensures GroupsFill(o, Groups(o).value.0, Groups(o).value.1)
  {
    hide Mul, Quot, Rem, CylindersFill;
    if o.disk.Some? {
      var total, spc := o.size / SECTOR, Mul(o.disk.value.0, o.disk.value.1);
      var room := (o.bsize - CGFREE) * 8;
      MulIsProduct(o.disk.value.0, o.disk.value.1);
      GroupsCover(o);
      FullCylinders(o.bsize, total, spc, Min(Min(Quot(total, spc), MAXCPG), Quot(room, spc)), Groups(o).value.0, Groups(o).value.1);
    }
  }

  lemma FullCylinders(bsize: nat, total: nat, spc: nat, cpg: nat, fpg: nat, ncg: nat)
    requires CGFREE <= bsize && 0 < spc && 0 < cpg && 0 < ncg && fpg == Mul(cpg, spc) <= total && fpg <= (bsize - CGFREE) * 8
    requires cpg == Min(Min(Quot(total, spc), MAXCPG), Quot((bsize - CGFREE) * 8, spc))
    requires Mul(ncg - 1, fpg) < total <= Mul(ncg, fpg)
    ensures CylindersFill(bsize, total, spc, cpg, fpg, ncg)
  {
    hide Mul, Quot, Rem;
    var room := (bsize - CGFREE) * 8;
    MulIsProduct(cpg, spc);
    MulIsProduct(ncg - 1, fpg);
    MulIsProduct(ncg, fpg);
    MulSucc(cpg, spc);
    MulIsProduct(cpg + 1, spc);
    Recompose(total, spc);
    Recompose(room, spc);
  }

  /** The summary area starts at block 4 and has just enough fragments; the headers follow at the next block
      boundary, block 5 at the earliest. */
  ghost predicate HeadersTight(l: Layout)
    requires 0 < l.frag
  {
    && l.csaddr == 4 * l.frag && (l.csfrags - 1) * SECTOR < l.ncg * CSUM <= l.csfrags * SECTOR
    && l.cblkno % l.frag == 0 && 5 * l.frag <= l.cblkno && l.csaddr + l.csfrags <= l.cblkno
    && (l.cblkno == 5 * l.frag || l.cblkno < l.csaddr + l.csfrags + l.frag)
  }

  lemma HeadersAreTight(o: Options)
    requires Plan(o).Ok?
    ensures 0 < Plan(o).value.frag && HeadersTight(Plan(o).value)
  {
    hide Mul, Quot, Rem, PowerOfTwo, Groups, InodeBlocks, HeadersTight, CeilDiv;
    var frag := o.bsize / SECTOR;
    FragIs(frag);
    TightHeader(Plan(o).value);
  }

  lemma TightHeader(l: Layout)
    requires (l.frag == 8 || l.frag == 16) && l.csaddr == 4 * l.frag && l.csfrags == CeilDiv(l.ncg * CSUM, SECTOR)
    requires l.cblkno == Mul(HeaderBlock(l.frag, l.ncg), l.frag)
    ensures HeadersTight(l)
  {
    hide Mul, Quot, CeilDiv;
    var header := HeaderBlock(l.frag, l.ncg);
    CeilIs(l.ncg * CSUM, SECTOR);
    CeilIs(4 * l.frag + l.csfrags, l.frag);
    MulIsProduct(header, l.frag);
    if l.frag == 8 { assert header * 8 % 8 == 0; } else { assert header * 16 % 16 == 0; }
  }

  /** What the formatter can lay out: proper sizes, whole cylinders that the free map can hold, and a group with room
      for its header, one block of inodes and one of data. */
  ghost predicate Formattable(o: Options) {
    && 0 < o.size && o.size % SECTOR == 0 && (o.bsize == 4096 || o.bsize == 8192) && 0 < o.bytesPerInode
    && (o.disk.Some? ==>
          var spc := o.disk.value.0 * o.disk.value.1; 0 < spc <= (o.bsize - CGFREE) * 8 && o.size / SECTOR % spc == 0)
    && Groups(o).Ok? && 0 < Groups(o).value.1
    && (HeaderBlock(o.bsize / SECTOR, Groups(o).value.1) + 3) * (o.bsize / SECTOR) <= Groups(o).value.0
  }

  lemma PlanIff(o: Options)
    ensures Plan(o).Ok? <==> Formattable(o)
    ensures CGFREE <= o.bsize && 0 < o.size / SECTOR && o.disk.Some? ==>
              (Groups(o).Ok? <==>
                var spc := o.disk.value.0 * o.disk.value.1; 0 < spc <= (o.bsize - CGFREE) * 8 && o.size / SECTOR % spc == 0)
  {
    hide Mul, Quot, Rem, Groups, HeaderBlock, PlanGroups, PowerOfTwo;
    if CGFREE <= o.bsize && 0 < o.size / SECTOR && o.disk.Some? { GroupsIff(o); }
    BlockSizes(o.bsize);
    if 4096 <= o.bsize <= SUPER && o.bsize % SECTOR == 0 && PowerOfTwo(o.bsize / SECTOR) { FragIs(o.bsize / SECTOR); }
    if 0 < o.size && o.size % SECTOR == 0 && (o.bsize == 4096 || o.bsize == 8192) && Groups(o).Ok? {
      GroupsCover(o);
      GroupIff(o, o.bsize / SECTOR, Groups(o).value.0, Groups(o).value.1);
    }
  }

  lemma BlockSizes(bsize: nat)
    ensures PowerOfTwo(8) && PowerOfTwo(16)
  {
    assert PowerOfTwo(1) && PowerOfTwo(2) && PowerOfTwo(4);
  }

  lemma GroupsIff(o: Options)
    requires CGFREE <= o.bsize && 0 < o.size / SECTOR && o.disk.Some?
    ensures Groups(o).Ok? <==>
              var spc := o.disk.value.0 * o.disk.value.1; 0 < spc <= (o.bsize - CGFREE) * 8 && o.size / SECTOR % spc == 0
  {
    hide Mul, Quot, Rem, CeilDiv;
    var (tracks, sectors) := o.disk.value;
    var total, room := o.size / SECTOR, (o.bsize - CGFREE) * 8;
    MulIsProduct(tracks, sectors);
    Positive(tracks, sectors);
    var spc := tracks * sectors;
    if 0 < spc {
      QuotIsDivision(total, spc);
      Recompose(total, spc);
      MulZero(spc);
      Recompose(room, spc);
      FitsOnce(room, spc);
    }
  }

  lemma Positive(a: nat, b: nat)
    ensures 0 < a * b <==> 0 < a && 0 < b
  {
    if 0 < a && 0 < b { Monotone(1, a, b); }
  }

  lemma FitsOnce(room: nat, spc: nat)
    requires 0 < spc
    ensures Quot(room, spc) == 0 <==> room < spc
  {
  }

  lemma GroupIff(o: Options, frag: nat, fpg: nat, ncg: nat)
    requires (frag == 8 || frag == 16) && o.bsize == frag * SECTOR && o.size % SECTOR == 0 && 0 < ncg && fpg <= o.size / SECTOR
    ensures PlanGroups(o, frag, fpg, ncg).Ok? <==> 0 < o.bytesPerInode && (HeaderBlock(frag, ncg) + 3) * frag <= fpg
  {
    hide Mul, Quot, Rem, HeaderBlock, CeilDiv;
    var header, inopb := HeaderBlock(frag, ncg), o.bsize / DINODE;
    Recompose(fpg, frag);
    MulIsProduct(Quot(fpg, frag), frag);
    if Quot(fpg, frag) <= header + 2 { Monotone(Quot(fpg, frag), header + 2, frag); } else { Monotone(header + 3, Quot(fpg, frag), frag); }
    QuotIsDivision(MAXIPG, inopb);
    var count := InodeBlocks(o, inopb, ncg, fpg, frag, header + 1);
    if count.Ok? {
      InodeRoom(o, inopb, ncg, fpg, frag, header + 1);
      DataRoom(fpg, frag, header + 1 + count.value);
    }
  }

  // --- areas -----------------------------------------------------------------

  /** The parts of the slice. */
  datatype Area = Superblock | SummaryArea | Header(cg: nat) | InodeArea(cg: nat) | DataArea(cg: nat)

  ghost predicate Exists(l: Layout, a: Area) { (a.Header? || a.InodeArea? || a.DataArea?) ==> a.cg < l.ncg }

  /** Fragments of group `cg` that the slice really has. */
  function GroupFrags(l: Layout, cg: nat): nat {
    if l.total <= Mul(cg, l.fpg) then 0 else Min(l.fpg, l.total - Mul(cg, l.fpg))
  }

  /** First fragment of an area, and the one past its last. */
  function Low(l: Layout, a: Area): nat {
    match a
    case Superblock => SUPER / SECTOR
    case SummaryArea => l.csaddr
    case Header(cg) => Mul(cg, l.fpg) + l.cblkno
    case InodeArea(cg) => Mul(cg, l.fpg) + l.iblkno
    case DataArea(cg) => Mul(cg, l.fpg) + l.dblkno
  }

  function High(l: Layout, a: Area): nat {
    match a
    case Superblock => 2 * SUPER / SECTOR
    case SummaryArea => l.csaddr + l.csfrags
    case Header(cg) => Mul(cg, l.fpg) + l.iblkno
    case InodeArea(cg) => Mul(cg, l.fpg) + l.dblkno
    case DataArea(cg) => Mul(cg, l.fpg) + Max(l.dblkno, GroupFrags(l, cg))
  }

  /** No two areas share a fragment. */
  lemma AreasApart(l: Layout, a: Area, b: Area)
    requires Ordered(l) && Exists(l, a) && Exists(l, b) && a != b
    ensures High(l, a) <= Low(l, b) || High(l, b) <= Low(l, a)
  {
    hide Mul, Rem;
    var i, j := GroupIndex(a), GroupIndex(b);
    InGroup(l, a);
    InGroup(l, b);
    if i < j { MulLess(i, j, l.fpg); } else if j < i { MulLess(j, i, l.fpg); }
  }

  function GroupIndex(a: Area): nat { if a.Superblock? || a.SummaryArea? then 0 else a.cg }

  lemma InGroup(l: Layout, a: Area)
    requires Ordered(l) && Exists(l, a)
    ensures Mul(GroupIndex(a), l.fpg) <= Low(l, a) && High(l, a) <= Mul(GroupIndex(a), l.fpg) + l.fpg
  {
    hide Mul, Rem;
    MulZero(l.fpg);
  }

  /** Every area lies inside the slice. */
  ghost predicate AllInside(l: Layout) { forall a | Exists(l, a) :: High(l, a) <= l.total }

  /** The metadata stays inside the slice exactly when the last group has room for its own. */
  lemma InsideIff(l: Layout)
    requires Ordered(l) && Tiled(l)
    ensures AllInside(l) <==> l.dblkno <= GroupFrags(l, l.ncg - 1)
  {
    hide Mul, Rem;
    var last := l.ncg - 1;
    MulSucc(last, l.fpg);
    if AllInside(l) {
      assert Exists(l, InodeArea(last)) && High(l, InodeArea(last)) <= l.total;
    }
    if l.dblkno <= GroupFrags(l, last) {
      forall a | Exists(l, a) ensures High(l, a) <= l.total {
        InGroup(l, a);
        if GroupIndex(a) < last { MulLess(GroupIndex(a), last, l.fpg); }
      }
    }
  }

  /** A slice of 33 cylinders of 64 sectors is accepted and can be written although its last group cannot hold all its inodes. */
  lemma ShortLastGroup()
    ensures var p := Plan(Options(33 * 64 * 512, 4096, 8192, Some((1, 64))));
      p.Ok? && Startable(p.value) && !Housed(p.value) && !AllInside(p.value)
  {
    hide Mul, Groups, InodeBlocks, HeaderBlock, CeilDiv, PowerOfTwo, Ordered, Tiled, AllInside;
    var o := Options(33 * 64 * 512, 4096, 8192, Some((1, 64)));
    ShortGroups(o);
    ShortInodes(o);
    MulIsProduct(6, 8);
    MulIsProduct(5, 8);
    MulIsProduct(9, 8);
    PlanOk(o);
    var l := Plan(o).value;
    MulIsProduct(1, 2048);
    InsideIff(l);
  }

  /** A slice of 33 cylinders of 16 sectors is accepted although the header of its last group lies past its end. */
  lemma UnwritableHeader()
    ensures var p := Plan(Options(33 * 16 * 512, 4096, 8192, Some((1, 16)))); p.Ok? && !Startable(p.value)
  {
    hide Mul, Groups, InodeBlocks, HeaderBlock, CeilDiv, PowerOfTwo;
    var o := Options(33 * 16 * 512, 4096, 8192, Some((1, 16)));
    TinyGroups(o);
    TinyInodes(o);
    MulIsProduct(5, 8);
    MulIsProduct(6, 8);
    MulIsProduct(7, 8);
    MulIsProduct(1, 512);
  }

  lemma TinyGroups(o: Options)
    requires o == Options(33 * 16 * 512, 4096, 8192, Some((1, 16)))
    ensures Groups(o) == Ok((512, 2)) && HeaderBlock(8, 2) == 5 && PowerOfTwo(8)
  {
    hide Mul, Quot, Rem;
    MulIsProduct(1, 16);
    QuotIsDivision(33 * 16, 16);
    QuotIsDivision((4096 - CGFREE) * 8, 16);
    MulIsProduct(32, 16);
    QuotIsDivision(33 + 32 - 1, 32);
    QuotIsDivision(32 + 512 - 1, 512);
    QuotIsDivision(33 + 8 - 1, 8);
    assert PowerOfTwo(1) && PowerOfTwo(2) && PowerOfTwo(4);
  }

  lemma TinyInodes(o: Options)
    requires o == Options(33 * 16 * 512, 4096, 8192, Some((1, 16)))
    ensures InodeBlocks(o, 32, 2, 512, 8, 6) == Ok(1)
  {
    hide Mul, Quot, Rem;
    QuotIsDivision(33 * 16 * 512 + 8192 - 1, 8192);
    QuotIsDivision(33 + 2 - 1, 2);
    QuotIsDivision(17 + 32 - 1, 32);
    QuotIsDivision(512, 8);
    MulIsProduct(1, 32);
  }

  lemma ShortGroups(o: Options)
    requires o == Options(33 * 64 * 512, 4096, 8192, Some((1, 64)))
    ensures Groups(o) == Ok((2048, 2)) && HeaderBlock(8, 2) == 5 && PowerOfTwo(8)
  {
    hide Mul, Quot, Rem;
    MulIsProduct(1, 64);
    QuotIsDivision(33 * 64, 64);
    QuotIsDivision((4096 - CGFREE) * 8, 64);
    MulIsProduct(32, 64);
    QuotIsDivision(33 + 32 - 1, 32);
    QuotIsDivision(32 + 512 - 1, 512);
    QuotIsDivision(33 + 8 - 1, 8);
    assert PowerOfTwo(1) && PowerOfTwo(2) && PowerOfTwo(4);
  }

  lemma ShortInodes(o: Options)
    requires o == Options(33 * 64 * 512, 4096, 8192, Some((1, 64)))
    ensures InodeBlocks(o, 32, 2, 2048, 8, 6) == Ok(3)
  {
    hide Mul, Quot, Rem;
    QuotIsDivision(33 * 64 * 512 + 8192 - 1, 8192);
    QuotIsDivision(132 + 2 - 1, 2);
    QuotIsDivision(66 + 32 - 1, 32);
    QuotIsDivision(2048, 8);
    MulIsProduct(3, 32);
  }

  /** The group header block has a byte for every bit of the group's free map. */
  ghost predicate MapFits(l: Layout) { forall f: nat | f < l.fpg :: CGFREE + f / 8 < l.bsize }

  /** The group header has a byte for every bit of the group's inode map, before its magic number. */
  ghost predicate UseMapFits(l: Layout) { forall n: nat | n < l.ipg :: CGUSED + n / 8 < CGMAGIC }

  lemma MapFitsIff(l: Layout)
    requires Ordered(l)
    ensures MapFits(l) <==> l.fpg <= (l.bsize - CGFREE) * 8
  {
    hide Mul, Rem;
    if MapFits(l) { assert CGFREE + (l.fpg - 1) / 8 < l.bsize; }
  }

  /** With disk geometry the free map always fits. */
  lemma DiskMapFits(o: Options)
    requires Plan(o).Ok? && o.disk.Some?
    ensures MapFits(Plan(o).value)
  {
    hide Plan, Ordered, Tiled;
    PlanOk(o);
    PlanBlock(o);
    MapFitsIff(Plan(o).value);
  }

  lemma PlanBlock(o: Options)
    requires Plan(o).Ok?
    ensures Plan(o).value.bsize == o.bsize
  {
    hide Groups, InodeBlocks, HeaderBlock, PowerOfTwo, CeilDiv, Mul;
  }

  /** A bare image of 16 MiB in blocks of 4096 is accepted although its one free map does not fit its block. */
  lemma OversizedMap()
    ensures var p := Plan(Options(0x100_0000, 4096, 8192, None)); p.Ok? && !MapFits(p.value)
  {
    hide Mul, InodeBlocks, HeaderBlock, CeilDiv, PowerOfTwo, Ordered, Tiled, MapFits, Quot;
    var o := Options(0x100_0000, 4096, 8192, None);
    BareInodes(o);
    MulIsProduct(6, 8);
    MulIsProduct(5, 8);
    MulIsProduct(70, 8);
    PlanOk(o);
    MapFitsIff(Plan(o).value);
  }

  lemma BareInodes(o: Options)
    requires o == Options(0x100_0000, 4096, 8192, None)
    ensures HeaderBlock(8, 1) == 5 && PowerOfTwo(8) && InodeBlocks(o, 32, 1, 0x8000, 8, 6) == Ok(64)
  {
    hide Mul, Quot, Rem;
    QuotIsDivision(16 + 512 - 1, 512);
    QuotIsDivision(33 + 8 - 1, 8);
    assert PowerOfTwo(1) && PowerOfTwo(2) && PowerOfTwo(4);
    QuotIsDivision(0x100_0000 + 8192 - 1, 8192);
    QuotIsDivision(2048 + 1 - 1, 1);
    QuotIsDivision(2048 + 32 - 1, 32);
    QuotIsDivision(0x8000, 8);
    MulIsProduct(64, 32);
  }

  /** The formatter can write every group header: it is inside the slice and holds the free map. */
  predicate Startable(l: Layout) {
    0 < l.ncg && CGFREE <= l.bsize && High(l, Header(l.ncg - 1)) <= l.total && l.fpg <= (l.bsize - CGFREE) * 8
  }

  /** Everything the file system will ever write has its place inside the slice. */
  predicate Housed(l: Layout) {
    0 < l.ncg && CGFREE <= l.bsize && l.dblkno <= GroupFrags(l, l.ncg - 1) && l.fpg <= (l.bsize - CGFREE) * 8
  }

  lemma HousedStarts(l: Layout)
    requires Ordered(l) && Tiled(l) && Housed(l)
    ensures Startable(l)
  {
    hide Mul, Rem;
  }

  // --- inode slots -----------------------------------------------------------

  /** `inode_byte_offset`: the byte where inode `n` is stored, relative to the slice. */
  function SlotByte(l: Layout, n: nat): nat
    requires 0 < l.ipg && 0 < l.inopb
  {
    var group, index := Quot(n, l.ipg), Rem(n, l.ipg);
    (Mul(group, l.fpg) + l.iblkno + Mul(Quot(index, l.inopb), l.frag)) * SECTOR + Rem(n, l.inopb) * DINODE
  }

  /** Slots are consecutive within their group's inode area. */
  lemma SlotIs(l: Layout, n: nat)
    requires Ordered(l) && n < Mul(l.ncg, l.ipg)
    ensures 0 < l.ipg && 0 < l.inopb
    ensures SlotByte(l, n) == (Mul(Quot(n, l.ipg), l.fpg) + l.iblkno) * SECTOR + Rem(n, l.ipg) * DINODE
    ensures Quot(n, l.ipg) < l.ncg && Rem(n, l.ipg) < l.ipg
  {
    hide Mul, Quot, Rem;
    MulLess(0, l.iblocks, l.inopb);
    MulZero(l.inopb);
    var group, index := Quot(n, l.ipg), Rem(n, l.ipg);
    Recompose(n, l.ipg);
    Recompose(index, l.inopb);
    if l.ncg <= group { MulAdd(l.ncg, group - l.ncg, l.ipg); }
    SameOffset(group, l.iblocks, l.inopb, index);
    MulIsProduct(Quot(index, l.inopb), l.frag);
    MulIsProduct(Quot(index, l.inopb), l.inopb);
    ByteForm(l.frag, l.inopb, Quot(index, l.inopb));
  }

  lemma ByteForm(frag: nat, inopb: nat, q: nat)
    requires (frag == 8 || frag == 16) && inopb == 4 * frag
    ensures q * frag * SECTOR == q * inopb * DINODE
  {
    if frag == 8 {
      assert q * frag * SECTOR == q * 4096 && q * inopb * DINODE == q * 4096;
    } else {
      assert q * frag * SECTOR == q * 8192 && q * inopb * DINODE == q * 8192;
    }
  }

  /** Groups hold whole inode blocks, so the offset in the block does not depend on the group. */
  lemma SameOffset(group: nat, blocks: nat, inopb: nat, index: nat)
    requires 0 < inopb
    ensures Rem(Mul(group, Mul(blocks, inopb)) + index, inopb) == Rem(index, inopb)
  {
    hide Mul, Quot, Rem;
    MulIsProduct(blocks, inopb);
    MulIsProduct(group, Mul(blocks, inopb));
    MulIsProduct(group * blocks, inopb);
    assert group * (blocks * inopb) == (group * blocks) * inopb;
    Recompose(index, inopb);
    MulAdd(group * blocks, Quot(index, inopb), inopb);
    Decompose(group * blocks + Quot(index, inopb), Rem(index, inopb), inopb);
  }

  /** An inode's slot lies in its group's inode area. */
  lemma SlotInside(l: Layout, n: nat)
    requires Ordered(l) && n < Mul(l.ncg, l.ipg)
    ensures 0 < l.ipg && 0 < l.inopb && Quot(n, l.ipg) < l.ncg
    ensures Low(l, InodeArea(Quot(n, l.ipg))) * SECTOR <= SlotByte(l, n)
    ensures SlotByte(l, n) + DINODE <= High(l, InodeArea(Quot(n, l.ipg))) * SECTOR
  {
    hide Mul, Quot, Rem, SlotByte;
    SlotIs(l, n);
    MulIsProduct(l.iblocks, l.frag);
    MulIsProduct(l.iblocks, l.inopb);
    ByteForm(l.frag, l.inopb, l.iblocks);
  }

  /** Distinct inodes have disjoint slots. */
  lemma SlotsApart(l: Layout, n: nat, m: nat)
    requires Ordered(l) && n < Mul(l.ncg, l.ipg) && m < Mul(l.ncg, l.ipg) && n != m
    ensures 0 < l.ipg && 0 < l.inopb
    ensures SlotByte(l, n) + DINODE <= SlotByte(l, m) || SlotByte(l, m) + DINODE <= SlotByte(l, n)
  {
    hide Mul, Quot, Rem, SlotByte;
    SlotIs(l, n);
    SlotIs(l, m);
    Recompose(n, l.ipg);
    Recompose(m, l.ipg);
    if Quot(n, l.ipg) != Quot(m, l.ipg) {
      SlotInside(l, n);
      SlotInside(l, m);
      AreasApart(l, InodeArea(Quot(n, l.ipg)), InodeArea(Quot(m, l.ipg)));
    }
  }

  // --- places ----------------------------------------------------------------

  /** Every group header and every inode slot lies in an image of `len` bytes, and both bit maps in their header. */
  ghost predicate Placed(l: Layout, len: nat) {
    && 0 < l.ipg && 0 < l.inopb
    && (forall cg: nat | cg < l.ncg :: High(l, Header(cg)) * SECTOR <= len)
    && (forall n: nat | n < Mul(l.ncg, l.ipg) :: SlotByte(l, n) + DINODE <= len)
    && MapFits(l) && UseMapFits(l)
  }

  /** The inodes whose slots an image of `len` bytes does not hold, so that they cannot be read. */
  function LostSlots(l: Layout, len: nat): set<nat>
    requires 0 < l.ipg && 0 < l.inopb
  {
    set n: nat | n < Mul(l.ncg, l.ipg) && SlotByte(l, n) + DINODE > len
  }

  lemma NothingLost(l: Layout, len: nat)
    requires Placed(l, len)
    ensures 0 < l.ipg && 0 < l.inopb && LostSlots(l, len) == {}
  {
    hide Mul, SlotByte;
  }

  /** Every inode can be read exactly when the last group has room for its own metadata. */
  lemma LostIff(l: Layout)
    requires Ordered(l) && Tiled(l)
    ensures 0 < l.ipg && 0 < l.inopb && (LostSlots(l, l.total * SECTOR) == {} <==> l.dblkno <= GroupFrags(l, l.ncg - 1))
  {
    hide Mul, Quot, Rem, SlotByte, AllInside, GroupFrags;
    SlotSizes(l);
    InsideIff(l);
    if l.dblkno <= GroupFrags(l, l.ncg - 1) {
      forall n: nat | n < Mul(l.ncg, l.ipg) ensures SlotByte(l, n) + DINODE <= l.total * SECTOR {
        SlotInside(l, n);
        AreaInside(l, InodeArea(Quot(n, l.ipg)));
      }
    } else {
      LastSlot(l);
      var n: nat :| n < Mul(l.ncg, l.ipg) && SlotByte(l, n) + DINODE > l.total * SECTOR;
      assert n in LostSlots(l, l.total * SECTOR);
    }
  }

  /** The geometry's data areas and inode numbers are those of the layout. */
  lemma GeometryAgrees(l: Layout, cg: nat)
    requires Ordered(l) && cg < l.ncg
    ensures var g := GeometryOf(l);
      && g.ncg == l.ncg && g.dsize == l.total && g.bsize == g.frag * g.fsize && 4 * g.nindir == g.bsize
      && Low(l, DataArea(cg)) == CgBase(g, cg) + g.dblkno && High(l, DataArea(cg)) == CgBase(g, cg) + Max(g.dblkno, CgFrags(g, cg))
      && g.ipg * DINODE == (High(l, InodeArea(cg)) - Low(l, InodeArea(cg))) * SECTOR
  {
    hide Mul, Rem;
    MulIsProduct(l.iblocks, l.frag);
    MulIsProduct(l.iblocks, l.inopb);
    ByteForm(l.frag, l.inopb, l.iblocks);
  }

  lemma SlotSizes(l: Layout)
    requires Ordered(l)
    ensures 0 < l.ipg && 0 < l.inopb
  {
    hide Mul, Rem;
    MulLess(0, l.iblocks, l.inopb);
    MulZero(l.inopb);
  }

  /** All metadata is in its place exactly when the layout is housed. */
  lemma PlacedIff(l: Layout)
    requires Ordered(l) && Tiled(l)
    ensures Placed(l, l.total * SECTOR) <==> Housed(l)
  {
    hide Mul, Quot, Rem, SlotByte, AllInside, GroupFrags;
    SlotSizes(l);
    MapFitsIff(l);
    InsideIff(l);
    if Housed(l) {
      forall cg: nat | cg < l.ncg ensures High(l, Header(cg)) <= l.total { AreaInside(l, Header(cg)); }
      forall n: nat | n < Mul(l.ncg, l.ipg) ensures SlotByte(l, n) + DINODE <= l.total * SECTOR {
        SlotInside(l, n);
        AreaInside(l, InodeArea(Quot(n, l.ipg)));
      }
    } else if MapFits(l) {
      LastSlot(l);
    }
  }

  lemma AreaInside(l: Layout, a: Area)
    requires AllInside(l) && Exists(l, a)
    ensures High(l, a) <= l.total
  {
  }

  /** The last inode's slot ends where the last inode area ends. */
  lemma LastSlot(l: Layout)
    requires Ordered(l) && Tiled(l) && GroupFrags(l, l.ncg - 1) < l.dblkno
    ensures 0 < l.ipg && 0 < l.inopb
    ensures exists n: nat :: n < Mul(l.ncg, l.ipg) && SlotByte(l, n) + DINODE > l.total * SECTOR
  {
    hide Mul, Quot, Rem, SlotByte;
    SlotSizes(l);
    var last := l.ncg - 1;
    MulSucc(last, l.ipg);
    MulSucc(last, l.fpg);
    var n := Mul(last, l.ipg) + l.ipg - 1;
    Decompose(last, l.ipg - 1, l.ipg);
    SlotIs(l, n);
    MulIsProduct(l.iblocks, l.frag);
    MulIsProduct(l.iblocks, l.inopb);
    ByteForm(l.frag, l.inopb, l.iblocks);
    assert SlotByte(l, n) + DINODE > l.total * SECTOR;
  }

  // --- writes stay in their place --------------------------------------------

  /** The bytes of inode `n`'s slot. */
  ghost function SlotBytes(l: Layout, img: seq<byte>, n: nat): seq<byte>
    requires 0 < l.ipg && 0 < l.inopb
  {
    var at := SlotByte(l, n);
    if at + DINODE <= |img| then img[at..at + DINODE] else []
  }

  /** The bytes of group `cg`'s header block. */
  ghost function HeaderBytes(l: Layout, img: seq<byte>, cg: nat): seq<byte> {
    var at := HeaderByte(l, cg);
    if at + l.bsize <= |img| then img[at..at + l.bsize] else []
  }

  /** Two byte ranges that share nothing. */
  ghost predicate ApartBytes(a: nat, m: nat, b: nat, n: nat) { a + m <= b || b + n <= a }

  ghost function HeaderByte(l: Layout, cg: nat): nat { Low(l, Header(cg)) * SECTOR }

  /** Every data block lies in the data area of its group. */
  lemma BlockArea(l: Layout, b: nat)
    requires Ordered(l) && ValidGeometry(GeometryOf(l)) && GoodBlock(GeometryOf(l), b)
    ensures 0 < l.fpg && Quot(b, l.fpg) < l.ncg && l.bsize == l.frag * SECTOR
    ensures Low(l, DataArea(Quot(b, l.fpg))) <= b && b + l.frag <= High(l, DataArea(Quot(b, l.fpg)))
  {
    hide Mul, Quot, Rem, Capacity;
    Recompose(b, l.fpg);
  }

  lemma SlotVsHeader(l: Layout, n: nat, cg: nat)
    requires Ordered(l) && n < Mul(l.ncg, l.ipg) && cg < l.ncg && 0 < l.ipg && 0 < l.inopb
    ensures ApartBytes(SlotByte(l, n), DINODE, HeaderByte(l, cg), l.bsize)
  {
    hide Mul, Quot, Rem, SlotByte, Ordered, High, Low;
    SlotInside(l, n);
    AreasApart(l, InodeArea(Quot(n, l.ipg)), Header(cg));
    HeaderSize(l, cg);
  }

  lemma SlotVsBlock(l: Layout, n: nat, b: nat)
    requires Ordered(l) && n < Mul(l.ncg, l.ipg) && 0 < l.ipg && 0 < l.inopb
    requires ValidGeometry(GeometryOf(l)) && GoodBlock(GeometryOf(l), b)
    ensures ApartBytes(SlotByte(l, n), DINODE, b * SECTOR, l.bsize)
  {
    hide Mul, Quot, Rem, SlotByte, Ordered, High, Low, ValidGeometry, GoodBlock;
    SlotInside(l, n);
    BlockArea(l, b);
    AreasApart(l, InodeArea(Quot(n, l.ipg)), DataArea(Quot(b, l.fpg)));
  }

  lemma HeaderVsBlock(l: Layout, cg: nat, b: nat)
    requires Ordered(l) && cg < l.ncg && ValidGeometry(GeometryOf(l)) && GoodBlock(GeometryOf(l), b)
    ensures ApartBytes(HeaderByte(l, cg), l.bsize, b * SECTOR, l.bsize)
  {
    hide Mul, Quot, Rem, Ordered, High, Low, ValidGeometry, GoodBlock;
    BlockArea(l, b);
    HeaderSize(l, cg);
    AreasApart(l, Header(cg), DataArea(Quot(b, l.fpg)));
  }

  lemma HeaderVsHeader(l: Layout, cg: nat, c: nat)
    requires Ordered(l) && cg < l.ncg && c < l.ncg && c != cg
    ensures ApartBytes(HeaderByte(l, cg), l.bsize, HeaderByte(l, c), l.bsize)
  {
    hide Mul, Ordered, High, Low;
    HeaderSize(l, cg);
    HeaderSize(l, c);
    AreasApart(l, Header(cg), Header(c));
  }

  /** A write that is apart from every data block leaves them all as they were. */
  lemma BlocksKept(l: Layout, img: seq<byte>, at: nat, d: seq<byte>)
    requires Ordered(l) && ValidGeometry(GeometryOf(l)) && at + |d| <= |img|
    requires forall b: nat | GoodBlock(GeometryOf(l), b) :: ApartBytes(at, |d|, b * SECTOR, l.bsize)
    ensures SameExcept(GeometryOf(l), img, Splice(img, at, d), {})
  {
    hide ValidGeometry, GoodBlock, Splice, Ordered;
    var g, img' := GeometryOf(l), Splice(img, at, d);
    forall b: nat | GoodBlock(g, b) ensures Region(g, img', b) == Region(g, img, b) {
      RegionAt(l, b);
      Elsewhere(img, at, d, b * SECTOR, l.bsize);
    }
  }

  /** Writing one inode's slot touches no other slot, no header and no data block. */
  lemma SlotWriteFrames(l: Layout, img: seq<byte>, n: nat, rec: seq<byte>)
    requires Ordered(l) && ValidGeometry(GeometryOf(l)) && n < Mul(l.ncg, l.ipg) && |rec| == DINODE
    requires 0 < l.ipg && 0 < l.inopb && SlotByte(l, n) + DINODE <= |img|
    ensures var img' := Splice(img, SlotByte(l, n), rec);
      && SlotBytes(l, img', n) == rec
      && (forall m: nat | m < Mul(l.ncg, l.ipg) && m != n :: SlotBytes(l, img', m) == SlotBytes(l, img, m))
      && (forall cg: nat | cg < l.ncg :: HeaderBytes(l, img', cg) == HeaderBytes(l, img, cg))
      && SameExcept(GeometryOf(l), img, img', {})
  {
    hide Mul, SlotByte, Splice, GoodBlock, ValidGeometry, Ordered, HeaderByte, SameExcept;
    var at := SlotByte(l, n);
    var img' := Splice(img, at, rec);
    SpliceParts(img, at, rec, at, at + DINODE);
    forall m: nat | m < Mul(l.ncg, l.ipg) && m != n ensures SlotBytes(l, img', m) == SlotBytes(l, img, m) {
      SlotsApart(l, n, m);
      Elsewhere(img, at, rec, SlotByte(l, m), DINODE);
    }
    forall cg: nat | cg < l.ncg ensures HeaderBytes(l, img', cg) == HeaderBytes(l, img, cg) {
      SlotVsHeader(l, n, cg);
      Elsewhere(img, at, rec, HeaderByte(l, cg), l.bsize);
    }
    forall b: nat | GoodBlock(GeometryOf(l), b) ensures ApartBytes(at, DINODE, b * SECTOR, l.bsize) { SlotVsBlock(l, n, b); }
    BlocksKept(l, img, at, rec);
  }

  /** Writing one header block touches no slot, no other header and no data block. */
  lemma HeaderWriteFrames(l: Layout, img: seq<byte>, cg: nat, blk: seq<byte>)
    requires Ordered(l) && ValidGeometry(GeometryOf(l)) && cg < l.ncg && |blk| == l.bsize && 0 < l.ipg && 0 < l.inopb
    requires HeaderByte(l, cg) + l.bsize <= |img|
    ensures var img' := Splice(img, HeaderByte(l, cg), blk);
      && HeaderBytes(l, img', cg) == blk
      && (forall n: nat | n < Mul(l.ncg, l.ipg) :: SlotBytes(l, img', n) == SlotBytes(l, img, n))
      && (forall c: nat | c < l.ncg && c != cg :: HeaderBytes(l, img', c) == HeaderBytes(l, img, c))
      && SameExcept(GeometryOf(l), img, img', {})
  {
    hide Mul, SlotByte, Splice, GoodBlock, ValidGeometry, Ordered, HeaderByte, SameExcept;
    var at := HeaderByte(l, cg);
    var img' := Splice(img, at, blk);
    SpliceParts(img, at, blk, at, at + l.bsize);
    forall n: nat | n < Mul(l.ncg, l.ipg) ensures SlotBytes(l, img', n) == SlotBytes(l, img, n) {
      SlotVsHeader(l, n, cg);
      Elsewhere(img, at, blk, SlotByte(l, n), DINODE);
    }
    forall c: nat | c < l.ncg && c != cg ensures HeaderBytes(l, img', c) == HeaderBytes(l, img, c) {
      HeaderVsHeader(l, cg, c);
      Elsewhere(img, at, blk, HeaderByte(l, c), l.bsize);
    }
    forall b: nat | GoodBlock(GeometryOf(l), b) ensures ApartBytes(at, l.bsize, b * SECTOR, l.bsize) { HeaderVsBlock(l, cg, b); }
    BlocksKept(l, img, at, blk);
  }

  /** Writing inside a data block touches no inode slot and no header. */
  lemma DataWriteFrames(l: Layout, img: seq<byte>, b: nat, off: nat, d: seq<byte>)
    requires Ordered(l) && ValidGeometry(GeometryOf(l)) && GoodBlock(GeometryOf(l), b) && off + |d| <= l.bsize
    requires 0 < l.ipg && 0 < l.inopb && b * SECTOR + l.bsize <= |img|
    ensures var img' := Splice(img, b * SECTOR + off, d);
      && (forall n: nat | n < Mul(l.ncg, l.ipg) :: SlotBytes(l, img', n) == SlotBytes(l, img, n))
      && (forall cg: nat | cg < l.ncg :: HeaderBytes(l, img', cg) == HeaderBytes(l, img, cg))
  {
    hide Mul, SlotByte, Splice, GoodBlock, ValidGeometry, Ordered, HeaderByte;
    var at := b * SECTOR + off;
    var img' := Splice(img, at, d);
    forall n: nat | n < Mul(l.ncg, l.ipg) ensures SlotBytes(l, img', n) == SlotBytes(l, img, n) {
      SlotVsBlock(l, n, b);
      Elsewhere(img, at, d, SlotByte(l, n), DINODE);
    }
    forall cg: nat | cg < l.ncg ensures HeaderBytes(l, img', cg) == HeaderBytes(l, img, cg) {
      HeaderVsBlock(l, cg, b);
      Elsewhere(img, at, d, HeaderByte(l, cg), l.bsize);
    }
  }

  lemma HeaderSize(l: Layout, cg: nat)
    requires Ordered(l)
    ensures Low(l, Header(cg)) * SECTOR + l.bsize == High(l, Header(cg)) * SECTOR
  {
    hide Mul, Rem;
  }

  lemma RegionAt(l: Layout, b: nat)
    requires Ordered(l)
    ensures Mul(b, GeometryOf(l).fsize) == b * SECTOR && l.bsize == l.frag * SECTOR
  {
    hide Rem;
    MulIsProduct(b, SECTOR);
  }

  lemma Elsewhere(img: seq<byte>, at: nat, d: seq<byte>, lo: nat, n: nat)
    requires at + |d| <= |img| && (lo + n <= at || at + |d| <= lo)
    ensures |Splice(img, at, d)| == |img|
    ensures lo + n <= |img| ==> Splice(img, at, d)[lo..lo + n] == img[lo..lo + n]
  {
    hide Splice;
    if lo + n <= |img| { SpliceParts(img, at, d, lo, lo + n); }
  }
}
