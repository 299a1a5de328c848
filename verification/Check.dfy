/** The consistency checker: four passes over the volume, and what their silence means. */
module Check {
  import opened Arith
  import opened Geometry
  import opened VolumeState
  import opened Alloc
  import opened Inodes
  import opened Reader
  import opened Dir
  import opened Directory
  import opened ListingOps
  import opened InodeAlloc
  import opened Births

  /** The four totals of the superblock. */
  datatype Field = Directories | WholeBlocks | Inodes | LooseFragments

  datatype Problem =
    | Unreadable(ino: nat)
    | BlockCountOff(ino: nat, found: nat, wanted: nat)
    | OutOfRange(ino: nat, pointer: bool, frag: nat)
    | DoubleClaim(frag: nat, first: nat, second: nat, pointer: bool)
    | SectorsOff(ino: nat, stored: nat, expected: nat)
    | UsedButFree(frag: nat, ino: nat)
    | Leaked(frag: nat)
    | DotElsewhere(ino: nat, target: nat)
    | DanglingEntry(ino: nat, name: Name, target: nat)
    | NoDot(ino: nat)
    | NoDotDot(ino: nat)
    | Orphan(ino: nat)
    | LinksOff(ino: nat, stored: nat, found: nat)
    | TotalOff(field: Field, recorded: int, sum: nat)

  // --- the predicate ---------------------------------------------------------

  /** A run of fragments one allocation covers: data or pointers of an inode. */
  datatype Extent = Extent(ino: nat, pointer: bool, start: nat, count: nat)

  ghost predicate Within(x: Extent, f: nat) { x.start <= f < x.start + x.count }

  ghost predicate Covered(xs: seq<Extent>, f: nat) { exists i :: 0 <= i < |xs| && Within(xs[i], f) }

  /** All extents lie inside the slice and no fragment is in two of them. */
  ghost predicate ClaimsOk(dsize: nat, xs: seq<Extent>) {
    && (forall i, f: nat | 0 <= i < |xs| && Within(xs[i], f) :: f < dsize)
    && (forall i, j, f: nat | 0 <= i < j < |xs| && Within(xs[i], f) :: !Within(xs[j], f))
  }

  /** The inodes the checker looks at: in use, and not the two reserved ones. */
  ghost predicate Checked(v: Vol, n: nat)
    requires Shape(v)
  {
    ROOT <= n && Used(v, n)
  }

  ghost function UsedTo(v: Vol, k: nat): seq<nat>
    requires Shape(v)
  {
    if k == 0 then [] else UsedTo(v, k - 1) + if Checked(v, k - 1) then [k - 1] else []
  }

  /** Those of them whose slots can be read: `lost` are the inodes stored past the end of the image. */
  ghost function ReadTo(v: Vol, lost: set<nat>, k: nat): seq<nat>
    requires Shape(v)
  {
    if k == 0 then [] else ReadTo(v, lost, k - 1) + if Checked(v, k - 1) && k - 1 !in lost then [k - 1] else []
  }

  /** No inode in use below `k` is lost. */
  ghost predicate NoneLost(v: Vol, lost: set<nat>, k: nat)
    requires Shape(v)
  {
    forall n: nat | n < k && Checked(v, n) :: n !in lost
  }

  lemma {:induction false} ReadInTable(v: Vol, lost: set<nat>, k: nat)
    requires Shape(v)
    ensures forall n: nat :: n in ReadTo(v, lost, k) <==> n < k && Checked(v, n) && n !in lost
    ensures NoneLost(v, lost, k) ==> ReadTo(v, lost, k) == UsedTo(v, k)
    decreases k
  {
    hide Shape, Used;
    if k != 0 { ReadInTable(v, lost, k - 1); }
  }

  lemma ReadListed(v: Vol, lost: set<nat>)
    requires Shape(v) && 0 < v.g.fsize && 0 < v.g.bsize
    ensures Listed(v, ReadTo(v, lost, |v.inodes|))
  {
    hide ReadTo, Checked, Shape;
    ReadInTable(v, lost, |v.inodes|);
    var us := ReadTo(v, lost, |v.inodes|);
    forall i | 0 <= i < |us| ensures us[i] < |v.inodes| { assert us[i] in us; }
  }

  function DataExtents(g: Geometry, n: nat, bs: seq<nat>, sizes: seq<nat>): (r: seq<Extent>)
    requires 0 < g.fsize
    ensures |r| == |bs|
  {
    seq(|bs|, i requires 0 <= i < |bs| => Extent(n, false, bs[i], Quot(if i < |sizes| then sizes[i] else g.bsize, g.fsize)))
  }

  function PtrExtents(g: Geometry, n: nat, ps: seq<nat>): (r: seq<Extent>)
    ensures |r| == |ps|
  {
    seq(|ps|, i requires 0 <= i < |ps| => Extent(n, true, ps[i], g.frag))
  }

  ghost function InodeExtents(v: Vol, n: nat): seq<Extent>
    requires 0 < v.g.fsize && 0 < v.g.bsize && n < |v.inodes|
  {
    DataExtents(v.g, n, DataBlocks(v.g, v.img, v.inodes[n]), AllocSizes(v.g, v.inodes[n].size))
    + PtrExtents(v.g, n, PtrBlocks(v.g, v.img, v.inodes[n]))
  }

  /** The extents of an inode are its data blocks, each with the fragments of its allocation, and its pointer blocks. */
  lemma ExtentsAre(v: Vol, n: nat)
    requires 0 < v.g.fsize && 0 < v.g.bsize && n < |v.inodes|
    ensures var xs, data, ptrs := InodeExtents(v, n), DataBlocks(v.g, v.img, v.inodes[n]), PtrBlocks(v.g, v.img, v.inodes[n]);
      var sizes := AllocSizes(v.g, v.inodes[n].size);
      && |xs| == |data| + |ptrs| && (forall j | 0 <= j < |xs| :: xs[j].ino == n && xs[j].start == (data + ptrs)[j])
      && (forall j | 0 <= j < |data| :: !xs[j].pointer && xs[j].count == Quot(if j < |sizes| then sizes[j] else v.g.bsize, v.g.fsize))
      && (forall j | |data| <= j < |xs| :: xs[j].pointer && xs[j].count == v.g.frag)
  {
    hide DataBlocks, PtrBlocks, AllocSizes, Quot;
  }

  function FragTotal(xs: seq<Extent>): nat {
    if xs == [] then 0 else FragTotal(xs[..|xs| - 1]) + xs[|xs| - 1].count
  }

  ghost predicate Listed(v: Vol, us: seq<nat>) {
    0 < v.g.fsize && 0 < v.g.bsize && forall i | 0 <= i < |us| :: us[i] < |v.inodes|
  }

  ghost function Extents(v: Vol, us: seq<nat>): seq<Extent>
    requires Listed(v, us)
  {
    if us == [] then [] else Extents(v, us[..|us| - 1]) + InodeExtents(v, us[|us| - 1])
  }

  /** As many blocks as the size calls for, and the right sector count. */
  ghost predicate InodeSound(v: Vol, n: nat)
    requires 0 < v.g.fsize && 0 < v.g.bsize && n < |v.inodes|
  {
    && |DataBlocks(v.g, v.img, v.inodes[n])| == |AllocSizes(v.g, v.inodes[n].size)|
    && v.inodes[n].blocks == ExpectedSectors(v, n)
  }

  ghost function ExpectedSectors(v: Vol, n: nat): nat
    requires 0 < v.g.fsize && 0 < v.g.bsize && n < |v.inodes|
  {
    Mul(FragTotal(InodeExtents(v, n)), v.g.fsize / SECTOR)
  }

  ghost predicate BitFine(v: Vol, xs: seq<Extent>, cg: nat, l: nat)
    requires Shape(v) && cg < v.g.ncg && l < v.g.fpg
  {
    v.cgs[cg].free[l] <==> !Covered(xs, CgBase(v.g, cg) + l)
  }

  /** In every data area, free in the map means in no extent. */
  ghost predicate MapsFine(v: Vol, xs: seq<Extent>)
    requires Shape(v)
  {
    forall cg: nat, l: nat | cg < v.g.ncg && v.g.dblkno <= l < v.cgs[cg].ndblk && l < v.g.fpg :: BitFine(v, xs, cg, l)
  }

  ghost function DirEntries(v: Vol, n: nat): seq<Entry>
    requires 0 < v.g.bsize && n < |v.inodes|
  {
    Entries(Contents(v.g, v.img, v.inodes[n]))
  }

  ghost predicate EntryFine(us: seq<nat>, n: nat, e: Entry) {
    if e.name == DOT then e.ino == n else e.name == DOTDOT || e.ino in us
  }

  ghost predicate Has(es: seq<Entry>, name: Name) { exists i :: 0 <= i < |es| && es[i].name == name }

  ghost predicate DirFine(v: Vol, us: seq<nat>, n: nat)
    requires 0 < v.g.bsize && n < |v.inodes|
  {
    var es := DirEntries(v, n);
    (forall i | 0 <= i < |es| :: EntryFine(us, n, es[i])) && Has(es, DOT) && Has(es, DOTDOT)
  }

  ghost function CountIno(es: seq<Entry>, n: nat): nat {
    if es == [] then 0 else CountIno(es[..|es| - 1], n) + One(es[|es| - 1].ino == n)
  }

  /** Directory records naming `n` in the directories among `us`. */
  ghost function RefsIn(v: Vol, us: seq<nat>, n: nat): nat
    requires Listed(v, us)
  {
    if us == [] then 0
    else RefsIn(v, us[..|us| - 1], n) + if v.inodes[us[|us| - 1]].kind == Directory then CountIno(DirEntries(v, us[|us| - 1]), n) else 0
  }

  ghost predicate LinksFine(v: Vol, us: seq<nat>, n: nat)
    requires Listed(v, us) && n < |v.inodes|
  {
    v.inodes[n].nlink == RefsIn(v, us, n) && (n == ROOT || RefsIn(v, us, n) > 0)
  }

  /** A stored 32-bit total as the checker reads it. */
  function Signed(x: nat): (r: int)
    ensures (r - x) % U32 == 0 && (x < U32 ==> 0 <= r + I31 < U32)
  {
    if x < I31 then x else x - U32
  }

  ghost predicate TotalsFine(v: Vol) {
    && Signed(v.totals.ndir) == Total(v.cgs).ndir && Signed(v.totals.nbfree) == Total(v.cgs).nbfree
    && Signed(v.totals.nifree) == Total(v.cgs).nifree && Signed(v.totals.nffree) == Total(v.cgs).nffree
  }

  /** The walks the checker makes stay inside the image. */
  ghost predicate Walkable(v: Vol, lost: set<nat>) {
    && Shape(v) && 0 < v.g.fsize && 0 < v.g.bsize
    && forall n: nat | n < |v.inodes| && Checked(v, n) && n !in lost ::
         && Inside(v.g, v.img, PtrBlocks(v.g, v.img, v.inodes[n]))
         && (v.inodes[n].kind == Directory ==> Listable(v.g, v.img, v.inodes[n]))
  }

  /** What a clean file system is. */
  ghost predicate Consistent(v: Vol)
    requires Shape(v) && 0 < v.g.fsize && 0 < v.g.bsize
  {
    UsedInTable(v, |v.inodes|);
    var us := UsedTo(v, |v.inodes|);
    var xs := Extents(v, us);
    && (forall i | 0 <= i < |us| :: InodeSound(v, us[i]))
    && ClaimsOk(v.g.dsize, xs)
    && MapsFine(v, xs)
    && (forall i | 0 <= i < |us| && v.inodes[us[i]].kind == Directory :: DirFine(v, us, us[i]))
    && (forall i | 0 <= i < |us| :: LinksFine(v, us, us[i]))
    && TotalsFine(v)
  }

  lemma {:induction false} UsedInTable(v: Vol, k: nat)
    requires Shape(v) && 0 < v.g.fsize && 0 < v.g.bsize
    ensures Listed(v, UsedTo(v, k)) && forall n: nat :: n in UsedTo(v, k) <==> n < k && Checked(v, n)
    decreases k
  {
    hide Shape, Used;
    if k != 0 { UsedInTable(v, k - 1); UsedIsListed(v, k - 1); }
  }

  lemma UsedIsListed(v: Vol, n: nat)
    requires Shape(v)
    ensures Checked(v, n) ==> n < |v.inodes|
  {
  }

  // --- the faults ------------------------------------------------------------

  /** The first extent that covers `f`. */
  ghost predicate First(xs: seq<Extent>, i: nat, f: nat) {
    i < |xs| && Within(xs[i], f) && forall k | 0 <= k < i :: !Within(xs[k], f)
  }

  /** What is wrong with extent `j`: fragments outside the slice, or already in an earlier extent. */
  ghost predicate ExtentFault(dsize: nat, xs: seq<Extent>, j: nat, p: Problem)
    requires j < |xs|
  {
    match p
    case OutOfRange(n, pointer, f) => n == xs[j].ino && pointer == xs[j].pointer && Within(xs[j], f) && dsize <= f
    case DoubleClaim(f, a, b, pointer) =>
      && b == xs[j].ino && pointer == xs[j].pointer && Within(xs[j], f) && f < dsize
      && exists i: nat :: i < j && First(xs, i, f) && a == xs[i].ino
    case _ => false
  }

  ghost predicate ClaimFault(dsize: nat, xs: seq<Extent>, p: Problem) {
    exists j: nat :: j < |xs| && ExtentFault(dsize, xs, j, p)
  }

  /** What is wrong with inode `n`'s own record. */
  ghost predicate RecordFault(v: Vol, lost: set<nat>, n: nat, p: Problem)
    requires 0 < v.g.fsize && 0 < v.g.bsize && n < |v.inodes|
  {
    match p
    case Unreadable(m) => m == n && n in lost
    case BlockCountOff(m, found, wanted) =>
      && m == n && n !in lost && found == |DataBlocks(v.g, v.img, v.inodes[n])| && wanted == |AllocSizes(v.g, v.inodes[n].size)|
      && found != wanted
    case SectorsOff(m, stored, expected) =>
      m == n && n !in lost && stored == v.inodes[n].blocks && expected == ExpectedSectors(v, n) && stored != expected
    case _ => false
  }

  ghost predicate RecordFaults(v: Vol, lost: set<nat>, k: nat, p: Problem)
    requires Shape(v) && 0 < v.g.fsize && 0 < v.g.bsize
  {
    exists n: nat :: n < k && n < |v.inodes| && Checked(v, n) && RecordFault(v, lost, n, p)
  }

  /** Fragment `f` lies in the data area of group `cg`. */
  ghost predicate InData(v: Vol, cg: nat, f: nat)
    requires Shape(v)
  {
    cg < v.g.ncg && CgBase(v.g, cg) + v.g.dblkno <= f < CgBase(v.g, cg) + v.cgs[cg].ndblk && f < CgBase(v.g, cg) + v.g.fpg
  }

  ghost predicate MapFault(v: Vol, xs: seq<Extent>, p: Problem)
    requires Shape(v)
  {
    match p
    case UsedButFree(f, n) =>
      && (exists cg: nat :: InData(v, cg, f) && v.cgs[cg].free[f - CgBase(v.g, cg)])
      && exists i: nat :: First(xs, i, f) && n == xs[i].ino
    case Leaked(f) => (exists cg: nat :: InData(v, cg, f) && !v.cgs[cg].free[f - CgBase(v.g, cg)]) && !Covered(xs, f)
    case _ => false
  }

  ghost predicate DirFault(es: seq<Entry>, us: seq<nat>, n: nat, p: Problem) {
    match p
    case DotElsewhere(m, target) => m == n && Entry(DOT, target) in es && target != n
    case DanglingEntry(m, name, target) =>
      m == n && Entry(name, target) in es && name != DOT && name != DOTDOT && target !in us
    case NoDot(m) => m == n && !Has(es, DOT)
    case NoDotDot(m) => m == n && !Has(es, DOTDOT)
    case _ => false
  }

  /** In the first `k` of the inodes `us`. */
  ghost predicate DirFaults(v: Vol, us: seq<nat>, k: nat, p: Problem)
    requires Listed(v, us) && k <= |us|
  {
    exists i: nat :: i < k && v.inodes[us[i]].kind == Directory && DirFault(DirEntries(v, us[i]), us, us[i], p)
  }

  ghost predicate LinkFault(v: Vol, us: seq<nat>, n: nat, p: Problem)
    requires Listed(v, us) && n < |v.inodes|
  {
    match p
    case Orphan(m) => m == n && n != ROOT && RefsIn(v, us, n) == 0
    case LinksOff(m, stored, found) => m == n && stored == v.inodes[n].nlink && found == RefsIn(v, us, n) && stored != found
    case _ => false
  }

  ghost predicate LinkFaults(v: Vol, us: seq<nat>, k: nat, p: Problem)
    requires Listed(v, us) && k <= |us|
  {
    exists i: nat :: i < k && LinkFault(v, us, us[i], p)
  }

  function FieldOf(cs: Csum, field: Field): nat {
    match field
    case Directories => cs.ndir
    case WholeBlocks => cs.nbfree
    case Inodes => cs.nifree
    case LooseFragments => cs.nffree
  }

  ghost predicate TotalFault(v: Vol, field: Field, p: Problem) {
    p.TotalOff? && p.field == field && p.recorded == Signed(FieldOf(v.totals, field)) && p.sum == FieldOf(Total(v.cgs), field) && p.recorded != p.sum
  }

  ghost predicate TotalFaults(v: Vol, p: Problem) { exists field :: TotalFault(v, field, p) }

  /** Every problem there is: each says what it says of this volume. */
  ghost predicate Fault(v: Vol, lost: set<nat>, p: Problem)
    requires Shape(v) && 0 < v.g.fsize && 0 < v.g.bsize
  {
    ReadListed(v, lost);
    var us := ReadTo(v, lost, |v.inodes|);
    var xs := Extents(v, us);
    || ClaimFault(v.g.dsize, xs, p) || RecordFaults(v, lost, |v.inodes|, p) || MapFault(v, xs, p)
    || DirFaults(v, us, |us|, p) || LinkFaults(v, us, |us|, p) || TotalFaults(v, p)
  }

  // --- pass 1: claims --------------------------------------------------------

  /** What the first `k` fragments of a run are reported for. */
  ghost predicate RunFault(owner: map<nat, nat>, dsize: nat, x: Extent, k: nat, p: Problem) {
    match p
    case OutOfRange(n, pointer, f) => n == x.ino && pointer == x.pointer && x.start <= f < x.start + k && dsize <= f
    case DoubleClaim(f, a, b, pointer) =>
      b == x.ino && pointer == x.pointer && x.start <= f < x.start + k && f < dsize && f in owner && a == owner[f]
    case _ => false
  }

  /** `claim_run`. */
  method ClaimRun(owner: map<nat, nat>, problems: seq<Problem>, x: Extent, dsize: nat)
    returns (owner': map<nat, nat>, problems': seq<Problem>)
    ensures forall p :: p in problems' <==> p in problems || RunFault(owner, dsize, x, x.count, p)
    ensures forall f: nat :: f in owner' <==> f in owner || (Within(x, f) && f < dsize)
    ensures forall f | f in owner' :: owner'[f] == if f in owner then owner[f] else x.ino
  {
    owner', problems' := owner, problems;
    for i := 0 to x.count
      invariant forall p :: p in problems' <==> p in problems || RunFault(owner, dsize, x, i, p)
      invariant forall f: nat :: f in owner' <==> f in owner || (x.start <= f < x.start + i && f < dsize)
      invariant forall f | f in owner' :: owner'[f] == if f in owner then owner[f] else x.ino
    {
      var f := x.start + i;
      if f >= dsize {
        problems' := problems' + [OutOfRange(x.ino, x.pointer, f)];
      } else if f in owner' {
        problems' := problems' + [DoubleClaim(f, owner'[f], x.ino, x.pointer)];
      } else {
        owner' := owner'[f := x.ino];
      }
    }
  }

  /** Each fragment of the slice in an extent belongs to the inode of the first extent it is in. */
  ghost predicate OwnersAre(owner: map<nat, nat>, dsize: nat, xs: seq<Extent>) {
    && (forall f: nat :: f in owner <==> f < dsize && Covered(xs, f))
    && (forall f: nat, i: nat | f in owner && First(xs, i, f) :: owner[f] == xs[i].ino)
  }

  /** The owner table of the extents `xs`, and the problems: theirs, and the other ones in `rest`. */
  ghost predicate Tallied(owner: map<nat, nat>, problems: seq<Problem>, dsize: nat, xs: seq<Extent>, rest: iset<Problem>) {
    OwnersAre(owner, dsize, xs) && forall p :: p in problems <==> p in rest || ClaimFault(dsize, xs, p)
  }

  lemma {:induction false} FirstExists(xs: seq<Extent>, f: nat) returns (i: nat)
    requires Covered(xs, f)
    ensures First(xs, i, f)
    decreases |xs|
  {
    var n := |xs| - 1;
    if Covered(xs[..n], f) {
      i := FirstExists(xs[..n], f);
    } else {
      i := n;
      assert forall k | 0 <= k < n :: xs[k] == xs[..n][k];
    }
  }

  /** A longer list changes nothing for the extents it starts with. */
  lemma SameFirst(xs: seq<Extent>, ys: seq<Extent>)
    ensures forall i: nat, f: nat | i < |xs| :: First(xs + ys, i, f) <==> First(xs, i, f)
  {
    hide Within;
    assert forall k | 0 <= k < |xs| :: (xs + ys)[k] == xs[k];
  }

  lemma SameExtentFault(dsize: nat, xs: seq<Extent>, ys: seq<Extent>, j: nat, p: Problem)
    requires j < |xs|
    ensures ExtentFault(dsize, xs + ys, j, p) <==> ExtentFault(dsize, xs, j, p)
  {
    hide Within, First;
    SameFirst(xs, ys);
  }

  lemma LastExtentFault(owner: map<nat, nat>, dsize: nat, xs: seq<Extent>, x: Extent, p: Problem)
    requires OwnersAre(owner, dsize, xs)
    ensures ExtentFault(dsize, xs + [x], |xs|, p) <==> RunFault(owner, dsize, x, x.count, p)
  {
    hide First, Covered;
    SameFirst(xs, [x]);
    if p.DoubleClaim? && p.frag in owner {
      var i := FirstExists(xs, p.frag);
      OneFirst(xs, p.frag);
      FirstCovers(xs, p.frag);
    }
    FirstCovers(xs, if p.DoubleClaim? then p.frag else 0);
  }

  lemma OneFirst(xs: seq<Extent>, f: nat)
    ensures forall i: nat, k: nat | First(xs, i, f) && First(xs, k, f) :: i == k
  {
  }

  lemma FirstCovers(xs: seq<Extent>, f: nat)
    ensures forall i: nat | First(xs, i, f) :: i < |xs| && Covered(xs, f)
  {
  }

  lemma TallyMore(owner: map<nat, nat>, problems: seq<Problem>, dsize: nat, xs: seq<Extent>, rest: iset<Problem>, x: Extent,
                  owner': map<nat, nat>, problems': seq<Problem>)
    requires Tallied(owner, problems, dsize, xs, rest)
    requires forall p :: p in problems' <==> p in problems || RunFault(owner, dsize, x, x.count, p)
    requires forall f: nat :: f in owner' <==> f in owner || (Within(x, f) && f < dsize)
    requires forall f | f in owner' :: owner'[f] == if f in owner then owner[f] else x.ino
    ensures Tallied(owner', problems', dsize, xs + [x], rest)
  {
    hide ExtentFault, RunFault, OwnersAre;
    OwnersMore(owner, dsize, xs, x, owner');
    forall p ensures p in problems' <==> p in rest || ClaimFault(dsize, xs + [x], p) {
      LastExtentFault(owner, dsize, xs, x, p);
      FaultsMore(dsize, xs, x, p);
    }
  }

  lemma FaultsMore(dsize: nat, xs: seq<Extent>, x: Extent, p: Problem)
    ensures ClaimFault(dsize, xs + [x], p) <==> ClaimFault(dsize, xs, p) || ExtentFault(dsize, xs + [x], |xs|, p)
  {
    hide ExtentFault;
    forall j: nat | j < |xs| ensures ExtentFault(dsize, xs + [x], j, p) <==> ExtentFault(dsize, xs, j, p) {
      SameExtentFault(dsize, xs, [x], j, p);
    }
  }

  lemma OwnersMore(owner: map<nat, nat>, dsize: nat, xs: seq<Extent>, x: Extent, owner': map<nat, nat>)
    requires OwnersAre(owner, dsize, xs)
    requires forall f: nat :: f in owner' <==> f in owner || (Within(x, f) && f < dsize)
    requires forall f | f in owner' :: owner'[f] == if f in owner then owner[f] else x.ino
    ensures OwnersAre(owner', dsize, xs + [x])
  {
    hide Within;
    var ys := xs + [x];
    assert forall k | 0 <= k < |xs| :: ys[k] == xs[k];
    assert ys[|xs|] == x;
    assert forall f: nat :: Covered(ys, f) <==> Covered(xs, f) || Within(x, f);
    SameFirst(xs, [x]);
    forall f: nat, i: nat | f in owner' && First(ys, i, f) ensures owner'[f] == ys[i].ino {
      if f in owner {
        var k := FirstExists(xs, f);
        assert First(ys, k, f);
        OneFirst(ys, f);
      } else {
        assert !Covered(xs, f);
        assert i == |xs|;
      }
    }
  }

  /** Claims a list of extents one after the other. */
  method ClaimAll(owner: map<nat, nat>, problems: seq<Problem>, xs: seq<Extent>, dsize: nat, ghost before: seq<Extent>, ghost rest: iset<Problem>)
    returns (owner': map<nat, nat>, problems': seq<Problem>)
    requires Tallied(owner, problems, dsize, before, rest)
    ensures Tallied(owner', problems', dsize, before + xs, rest)
  {
    hide Tallied;
    owner', problems' := owner, problems;
    assert before + xs[..0] == before;
    for i := 0 to |xs|
      invariant Tallied(owner', problems', dsize, before + xs[..i], rest)
    {
      var o, p := ClaimRun(owner', problems', xs[i], dsize);
      TallyMore(owner', problems', dsize, before + xs[..i], rest, xs[i], o, p);
      assert before + xs[..i + 1] == before + xs[..i] + [xs[i]];
      owner', problems' := o, p;
    }
    assert before + xs[..|xs|] == before + xs;
  }

  /** The faults of one record. */
  ghost function OwnFaults(v: Vol, lost: set<nat>, n: nat): iset<Problem>
    requires 0 < v.g.fsize && 0 < v.g.bsize && n < |v.inodes|
  {
    iset p: Problem | RecordFault(v, lost, n, p)
  }

  /** One inode of pass 1. */
  method CheckInode(vol: Volume, lost: set<nat>, n: nat, owner: map<nat, nat>, problems: seq<Problem>, ghost us: seq<nat>, ghost rest: iset<Problem>)
    returns (owner': map<nat, nat>, problems': seq<Problem>)
    requires Walkable(vol.View(), lost) && Checked(vol.View(), n) && n !in lost && Listed(vol.View(), us) && n < |vol.inodes|
    requires Tallied(owner, problems, vol.g.dsize, Extents(vol.View(), us), rest)
    ensures Tallied(owner', problems', vol.g.dsize, Extents(vol.View(), us + [n]), rest + OwnFaults(vol.View(), lost, n))
  {
    hide Tallied, DataBlocks, PtrBlocks, Sizes, FragTotal, DataExtents, PtrExtents, Checked;
    ghost var v := vol.View();
    ghost var before := Extents(v, us);
    WalkShape(v, lost, n);
    var d := vol.inodes[n];
    var bs := InodeDataBlocks(vol, d);
    var sizes := AllocationByteSizes(vol.g, d.size);
    problems' := problems;
    ghost var rest1 := rest;
    if |bs| != |sizes| {
      problems' := problems' + [BlockCountOff(n, |bs|, |sizes|)];
      rest1 := rest + iset{BlockCountOff(n, |bs|, |sizes|)};
      OneMoreProblem(owner, problems, vol.g.dsize, before, rest, BlockCountOff(n, |bs|, |sizes|));
    }
    var xs := DataExtents(vol.g, n, bs, sizes);
    owner', problems' := ClaimAll(owner, problems', xs, vol.g.dsize, before, rest1);
    var ps := InodePointerBlocks(vol, d);
    var ys := PtrExtents(vol.g, n, ps);
    owner', problems' := ClaimAll(owner', problems', ys, vol.g.dsize, before + xs, rest1);
    assert before + xs + ys == before + (xs + ys);
    var expected := Mul(FragTotal(xs + ys), vol.g.fsize / SECTOR);
    ghost var rest2 := rest1;
    if d.blocks != expected {
      OneMoreProblem(owner', problems', vol.g.dsize, before + (xs + ys), rest1, SectorsOff(n, d.blocks, expected));
      problems' := problems' + [SectorsOff(n, d.blocks, expected)];
      rest2 := rest1 + iset{SectorsOff(n, d.blocks, expected)};
    }
    assert rest2 == rest + OwnFaults(v, lost, n);
    assert (us + [n])[..|us|] == us;
  }

  lemma OneMoreProblem(owner: map<nat, nat>, problems: seq<Problem>, dsize: nat, xs: seq<Extent>, rest: iset<Problem>, q: Problem)
    requires Tallied(owner, problems, dsize, xs, rest)
    ensures Tallied(owner, problems + [q], dsize, xs, rest + iset{q})
  {
    hide OwnersAre, ClaimFault;
  }

  lemma WalkShape(v: Vol, lost: set<nat>, n: nat)
    requires Walkable(v, lost) && Checked(v, n) && n !in lost && n < |v.inodes|
    ensures 0 < v.g.bsize && 0 < v.g.fsize && 4 * v.g.nindir <= v.g.bsize && Inside(v.g, v.img, PtrBlocks(v.g, v.img, v.inodes[n]))
  {
    hide Listable;
  }

  /** The faults of the records below `k`. */
  ghost function FaultsTo(v: Vol, lost: set<nat>, k: nat): iset<Problem>
    requires Shape(v) && 0 < v.g.fsize && 0 < v.g.bsize
  {
    iset p: Problem | RecordFaults(v, lost, k, p)
  }

  /** Pass 1: every used inode that cannot be read, whose blocks are out of range or claimed already, or whose counts are off. */
  method ClaimPass(vol: Volume, lost: set<nat>) returns (used: seq<nat>, owner: map<nat, nat>, problems: seq<Problem>)
    requires Walkable(vol.View(), lost)
    ensures used == ReadTo(vol.View(), lost, |vol.inodes|) && Listed(vol.View(), used)
    ensures Tallied(owner, problems, vol.g.dsize, Extents(vol.View(), used), FaultsTo(vol.View(), lost, |vol.inodes|))
  {
    hide Tallied, Extents, FaultsTo, Walkable, ReadTo, Mul;
    ghost var v := vol.View();
    used, owner, problems := [], map[], [];
    NothingTallied(v, lost);
    MulZero(vol.g.ipg);
    for cg := 0 to vol.g.ncg
      invariant used == ReadTo(v, lost, Mul(cg, vol.g.ipg)) && Listed(v, used)
      invariant Tallied(owner, problems, vol.g.dsize, Extents(v, used), FaultsTo(v, lost, Mul(cg, vol.g.ipg)))
    {
      used, owner, problems := ClaimGroup(vol, lost, cg, used, owner, problems);
      MulSucc(cg, vol.g.ipg);
    }
  }

  /** Pass 1 over the inodes of one group. */
  method ClaimGroup(vol: Volume, lost: set<nat>, cg: nat, used: seq<nat>, owner: map<nat, nat>, problems: seq<Problem>)
    returns (used': seq<nat>, owner': map<nat, nat>, problems': seq<Problem>)
    requires Walkable(vol.View(), lost) && cg < vol.g.ncg && used == ReadTo(vol.View(), lost, Mul(cg, vol.g.ipg)) && Listed(vol.View(), used)
    requires Tallied(owner, problems, vol.g.dsize, Extents(vol.View(), used), FaultsTo(vol.View(), lost, Mul(cg, vol.g.ipg)))
    ensures used' == ReadTo(vol.View(), lost, Mul(cg, vol.g.ipg) + vol.g.ipg) && Listed(vol.View(), used')
    ensures Tallied(owner', problems', vol.g.dsize, Extents(vol.View(), used'), FaultsTo(vol.View(), lost, Mul(cg, vol.g.ipg) + vol.g.ipg))
  {
    hide Tallied, Extents, FaultsTo, OwnFaults, Checked, Mul, Walkable, ValidGeometry;
    ghost var v := vol.View();
    WalkableShape(v, lost);
    used', owner', problems' := used, owner, problems;
    for local := 0 to vol.g.ipg
      invariant used' == ReadTo(v, lost, Mul(cg, vol.g.ipg) + local) && Listed(v, used')
      invariant Tallied(owner', problems', vol.g.dsize, Extents(v, used'), FaultsTo(v, lost, Mul(cg, vol.g.ipg) + local))
    {
      var n := Mul(cg, vol.g.ipg) + local;
      Slot(v, cg, local);
      FaultsMoreTo(v, lost, n);
      ghost var rest := FaultsTo(v, lost, n);
      if !(cg == 0 && n < ROOT) && vol.cgs[cg].iused[local] {
        if n in lost {
          OneMoreProblem(owner', problems', vol.g.dsize, Extents(v, used'), rest, Unreadable(n));
          problems' := problems' + [Unreadable(n)];
        } else {
          owner', problems' := CheckInode(vol, lost, n, owner', problems', used', rest);
          used' := used' + [n];
        }
      }
    }
  }

  /** What inode `n` adds to the faults. */
  lemma FaultsMoreTo(v: Vol, lost: set<nat>, n: nat)
    requires Shape(v) && 0 < v.g.fsize && 0 < v.g.bsize && n < |v.inodes|
    ensures !Checked(v, n) ==> FaultsTo(v, lost, n + 1) == FaultsTo(v, lost, n)
    ensures Checked(v, n) ==> FaultsTo(v, lost, n + 1) == FaultsTo(v, lost, n) + OwnFaults(v, lost, n)
    ensures n in lost ==> OwnFaults(v, lost, n) == iset{Unreadable(n)}
  {
    hide RecordFault, Checked, Shape;
    forall p ensures RecordFaults(v, lost, n + 1, p) <==> RecordFaults(v, lost, n, p) || (Checked(v, n) && RecordFault(v, lost, n, p)) {
    }
    if n in lost { LostFault(v, lost, n); }
  }

  lemma LostFault(v: Vol, lost: set<nat>, n: nat)
    requires 0 < v.g.fsize && 0 < v.g.bsize && n < |v.inodes| && n in lost
    ensures OwnFaults(v, lost, n) == iset{Unreadable(n)}
  {
    hide DataBlocks, AllocSizes, ExpectedSectors;
  }

  lemma WalkableShape(v: Vol, lost: set<nat>)
    requires Walkable(v, lost)
    ensures Shape(v) && 0 < v.g.fsize && 0 < v.g.bsize
  {
    hide Listable, Checked, Shape;
  }

  lemma NothingTallied(v: Vol, lost: set<nat>)
    requires Walkable(v, lost)
    ensures Shape(v) && ReadTo(v, lost, 0) == [] && Listed(v, []) && Extents(v, []) == []
    ensures Tallied(map[], [], v.g.dsize, [], FaultsTo(v, lost, 0))
  {
  }

  lemma Slot(v: Vol, cg: nat, l: nat)
    requires Shape(v) && cg < v.g.ncg && l < v.g.ipg
    ensures var n := Mul(cg, v.g.ipg) + l; n < |v.inodes| && (Checked(v, n) <==> ROOT <= n && v.cgs[cg].iused[l]) && (n < ROOT ==> cg == 0)
  {
    hide Mul, Quot, Rem;
    SlotOf(v, cg, l);
    if cg > 0 { MulLess(0, cg, v.g.ipg); }
  }

  // --- pass 2: free maps -----------------------------------------------------

  /** What the first `k` fragments of group `cg` are reported for. */
  ghost predicate GroupFault(v: Vol, owner: map<nat, nat>, cg: nat, k: nat, p: Problem)
    requires Shape(v)
  {
    match p
    case UsedButFree(f, n) =>
      InData(v, cg, f) && f < CgBase(v.g, cg) + k && v.cgs[cg].free[f - CgBase(v.g, cg)] && f in owner && n == owner[f]
    case Leaked(f) => InData(v, cg, f) && f < CgBase(v.g, cg) + k && !v.cgs[cg].free[f - CgBase(v.g, cg)] && f !in owner
    case _ => false
  }

  ghost predicate GroupFaults(v: Vol, owner: map<nat, nat>, k: nat, p: Problem)
    requires Shape(v)
  {
    exists cg: nat :: cg < k && cg < v.g.ncg && GroupFault(v, owner, cg, v.cgs[cg].ndblk, p)
  }

  /** Pass 2: the free maps against the owner table. */
  method MapPass(vol: Volume, owner: map<nat, nat>, problems: seq<Problem>) returns (problems': seq<Problem>)
    requires Shape(vol.View())
    ensures forall p :: p in problems' <==> p in problems || GroupFaults(vol.View(), owner, vol.g.ncg, p)
  {
    hide ValidGeometry, GroupFault;
    problems' := problems;
    for cg := 0 to vol.g.ncg
      invariant forall p :: p in problems' <==> p in problems || GroupFaults(vol.View(), owner, cg, p)
    {
      GroupFaultsMore(vol.View(), owner, cg);
      problems' := MapGroup(vol, cg, owner, problems');
    }
  }

  lemma GroupFaultsMore(v: Vol, owner: map<nat, nat>, cg: nat)
    requires Shape(v) && cg < v.g.ncg
    ensures forall p :: GroupFaults(v, owner, cg + 1, p) <==> GroupFaults(v, owner, cg, p) || GroupFault(v, owner, cg, v.cgs[cg].ndblk, p)
  {
    hide GroupFault, ValidGeometry;
  }

  method MapGroup(vol: Volume, cg: nat, owner: map<nat, nat>, problems: seq<Problem>) returns (problems': seq<Problem>)
    requires Shape(vol.View()) && cg < vol.g.ncg
    ensures forall p :: p in problems' <==> p in problems || GroupFault(vol.View(), owner, cg, vol.cgs[cg].ndblk, p)
  {
    hide ValidGeometry, Mul;
    InGroup(vol.View(), cg);
    problems' := problems;
    var l := vol.g.dblkno;
    while l < vol.cgs[cg].ndblk
      invariant vol.g.dblkno <= l
      invariant forall p :: p in problems' <==> p in problems || GroupFault(vol.View(), owner, cg, Min(l, vol.cgs[cg].ndblk), p)
    {
      var f := CgBase(vol.g, cg) + l;
      if f in owner && vol.cgs[cg].free[l] {
        problems' := problems' + [UsedButFree(f, owner[f])];
      } else if f !in owner && !vol.cgs[cg].free[l] {
        problems' := problems' + [Leaked(f)];
      }
      l := l + 1;
    }
  }

  lemma InGroup(v: Vol, cg: nat)
    requires Shape(v) && cg < v.g.ncg
    ensures v.cgs[cg].ndblk <= v.g.fpg == |v.cgs[cg].free|
  {
    hide Mul;
  }

  // --- pass 3: directories and link counts -----------------------------------

  function RefOf(refs: map<nat, nat>, n: nat): nat { if n in refs then refs[n] else 0 }

  /** What the single entries are reported for. */
  ghost predicate EntryFault(es: seq<Entry>, us: seq<nat>, n: nat, p: Problem) { !p.NoDot? && !p.NoDotDot? && DirFault(es, us, n, p) }

  lemma EntriesMore(us: seq<nat>, n: nat, es: seq<Entry>, e: Entry)
    ensures forall p :: EntryFault(es + [e], us, n, p) <==> EntryFault(es, us, n, p) || EntryFault([e], us, n, p)
    ensures forall name :: Has(es + [e], name) <==> Has(es, name) || e.name == name
    ensures forall m: nat :: CountIno(es + [e], m) == CountIno(es, m) + One(e.ino == m)
  {
    var fs := es + [e];
    assert fs[|es|] == e && fs[..|es|] == es;
    assert forall i | 0 <= i < |es| :: fs[i] == es[i];
  }

  /** One directory of pass 3. */
  method CheckDirectory(vol: Volume, n: nat, used: seq<nat>, refs: map<nat, nat>, problems: seq<Problem>)
    returns (refs': map<nat, nat>, problems': seq<Problem>)
    requires n < |vol.inodes| && Listable(vol.g, vol.image[..], vol.inodes[n]) && 0 < vol.g.bsize
    ensures forall m: nat :: RefOf(refs', m) == RefOf(refs, m) + CountIno(DirEntries(vol.View(), n), m)
    ensures forall p :: p in problems' <==> p in problems || DirFault(DirEntries(vol.View(), n), used, n, p)
  {
    hide Listable, Contents, Entries, Has, CountIno;
    var es := ReadEntries(vol, vol.inodes[n]);
    refs', problems' := refs, problems;
    var sawDot, sawDotDot := false, false;
    NoEntries(used, n);
    for i := 0 to |es|
      invariant forall m: nat :: RefOf(refs', m) == RefOf(refs, m) + CountIno(es[..i], m)
      invariant sawDot == Has(es[..i], DOT) && sawDotDot == Has(es[..i], DOTDOT)
      invariant forall p :: p in problems' <==> p in problems || EntryFault(es[..i], used, n, p)
    {
      var e := es[i];
      EntriesMore(used, n, es[..i], e);
      assert es[..i + 1] == es[..i] + [e];
      refs' := refs'[e.ino := RefOf(refs', e.ino) + 1];
      if e.name == DOT {
        sawDot := true;
        if e.ino != n {
          problems' := problems' + [DotElsewhere(n, e.ino)];
        }
      } else if e.name == DOTDOT {
        sawDotDot := true;
      } else if e.ino !in used {
        problems' := problems' + [DanglingEntry(n, e.name, e.ino)];
      }
    }
    assert es[..|es|] == es;
    if !sawDot {
      problems' := problems' + [NoDot(n)];
    }
    if !sawDotDot {
      problems' := problems' + [NoDotDot(n)];
    }
  }

  lemma NoEntries(us: seq<nat>, n: nat)
    ensures (forall p :: !EntryFault([], us, n, p)) && (forall name :: !Has([], name)) && forall m: nat :: CountIno([], m) == 0
  {
  }

  ghost predicate DirsListable(v: Vol, us: seq<nat>)
    requires Listed(v, us)
  {
    forall i | 0 <= i < |us| && v.inodes[us[i]].kind == Directory :: Listable(v.g, v.img, v.inodes[us[i]])
  }

  /** Pass 3, first half: directory contents and reference counts. */
  method DirPass(vol: Volume, used: seq<nat>, problems: seq<Problem>) returns (refs: map<nat, nat>, problems': seq<Problem>)
    requires Listed(vol.View(), used) && DirsListable(vol.View(), used)
    ensures forall m: nat :: RefOf(refs, m) == RefsIn(vol.View(), used, m)
    ensures forall p :: p in problems' <==> p in problems || DirFaults(vol.View(), used, |used|, p)
  {
    hide Listable, DirFault, CountIno, DirEntries;
    ghost var v := vol.View();
    refs, problems' := map[], problems;
    for i := 0 to |used|
      invariant forall m: nat :: RefOf(refs, m) == RefsIn(v, used[..i], m)
      invariant forall p :: p in problems' <==> p in problems || DirFaults(v, used, i, p)
    {
      ghost var was := refs;
      if vol.inodes[used[i]].kind == Directory {
        refs, problems' := CheckDirectory(vol, used[i], used, refs, problems');
      }
      RefsMore(v, used, i);
      DirFaultsMore(v, used, i);
    }
    assert used[..|used|] == used;
  }

  lemma RefsMore(v: Vol, us: seq<nat>, i: nat)
    requires Listed(v, us) && i < |us|
    ensures forall m: nat :: RefsIn(v, us[..i + 1], m) == RefsIn(v, us[..i], m) + if v.inodes[us[i]].kind == Directory then CountIno(DirEntries(v, us[i]), m) else 0
  {
    hide CountIno, DirEntries;
    assert us[..i + 1][..i] == us[..i];
  }

  lemma DirFaultsMore(v: Vol, us: seq<nat>, i: nat)
    requires Listed(v, us) && i < |us|
    ensures forall p :: DirFaults(v, us, i + 1, p) <==>
              DirFaults(v, us, i, p) || (v.inodes[us[i]].kind == Directory && DirFault(DirEntries(v, us[i]), us, us[i], p))
  {
    hide DirFault, DirEntries;
  }

  /** Pass 3, second half: link counts and orphans. */
  method LinkPass(vol: Volume, used: seq<nat>, refs: map<nat, nat>, problems: seq<Problem>) returns (problems': seq<Problem>)
    requires Listed(vol.View(), used) && forall m: nat :: RefOf(refs, m) == RefsIn(vol.View(), used, m)
    ensures forall p :: p in problems' <==> p in problems || LinkFaults(vol.View(), used, |used|, p)
  {
    hide RefsIn;
    ghost var v := vol.View();
    problems' := problems;
    for i := 0 to |used|
      invariant forall p :: p in problems' <==> p in problems || LinkFaults(v, used, i, p)
    {
      var n := used[i];
      var found := RefOf(refs, n);
      LinkFaultsMore(v, used, i);
      if n != ROOT && found == 0 {
        problems' := problems' + [Orphan(n)];
      }
      if found != vol.inodes[n].nlink {
        problems' := problems' + [LinksOff(n, vol.inodes[n].nlink, found)];
      }
    }
  }

  lemma LinkFaultsMore(v: Vol, us: seq<nat>, i: nat)
    requires Listed(v, us) && i < |us|
    ensures forall p :: LinkFaults(v, us, i + 1, p) <==> LinkFaults(v, us, i, p) || LinkFault(v, us, us[i], p)
  {
    hide LinkFault;
  }

  // --- pass 4: totals --------------------------------------------------------

  /** `check_total`. */
  method CheckTotal(field: Field, stored: nat, sum: nat, problems: seq<Problem>) returns (problems': seq<Problem>)
    ensures forall p :: p in problems' <==> p in problems || (Signed(stored) != sum && p == TotalOff(field, Signed(stored), sum))
  {
    hide Signed;
    problems' := if Signed(stored) != sum then problems + [TotalOff(field, Signed(stored), sum)] else problems;
  }

  /** Pass 4: the superblock totals against the group sums. */
  method TotalPass(vol: Volume, problems: seq<Problem>) returns (problems': seq<Problem>)
    ensures forall p :: p in problems' <==> p in problems || TotalFaults(vol.View(), p)
  {
    hide Signed;
    var ndir: nat, nbfree: nat, nifree: nat, nffree: nat := 0, 0, 0, 0;
    for cg := 0 to |vol.cgs|
      invariant Csum(ndir, nbfree, nifree, nffree) == Total(vol.cgs[..cg])
    {
      assert vol.cgs[..cg + 1][..cg] == vol.cgs[..cg];
      var cs := vol.cgs[cg].cs;
      ndir, nbfree, nifree, nffree := ndir + cs.ndir, nbfree + cs.nbfree, nifree + cs.nifree, nffree + cs.nffree;
    }
    assert vol.cgs[..|vol.cgs|] == vol.cgs;
    problems' := CheckTotal(Directories, vol.totals.ndir, ndir, problems);
    problems' := CheckTotal(WholeBlocks, vol.totals.nbfree, nbfree, problems');
    problems' := CheckTotal(Inodes, vol.totals.nifree, nifree, problems');
    problems' := CheckTotal(LooseFragments, vol.totals.nffree, nffree, problems');
    ghost var v := vol.View();
    forall p ensures p in problems' <==> p in problems || TotalFaults(v, p) { FourTotals(v, p); }
  }

  lemma FourTotals(v: Vol, p: Problem)
    ensures TotalFaults(v, p) <==>
              TotalFault(v, Directories, p) || TotalFault(v, WholeBlocks, p) || TotalFault(v, Inodes, p) || TotalFault(v, LooseFragments, p)
  {
    hide Signed, Total;
    if TotalFaults(v, p) {
      assert p.TotalOff? && TotalFault(v, p.field, p);
    }
  }

  // --- the checker -----------------------------------------------------------

  /** `check_filesystem`: reports exactly the faults there are, and is silent exactly on consistent file systems whose
      used inodes can all be read. */
  method CheckFilesystem(vol: Volume, lost: set<nat>) returns (problems: seq<Problem>)
    requires Walkable(vol.View(), lost)
    ensures forall p :: p in problems <==> Fault(vol.View(), lost, p)
    ensures problems == [] <==> NoneLost(vol.View(), lost, |vol.inodes|) && Consistent(vol.View())
  {
    hide Walkable, Tallied, Extents, FaultsTo, NoneLost, ReadTo, Listed, GroupFaults, DirFaults, LinkFaults, TotalFaults, Shape, Consistent, DirsListable, RefsIn, Covered, Fault;
    ghost var v := vol.View();
    WalkableShape(v, lost);
    var used, owner, claims := ClaimPass(vol, lost);
    var maps := MapPass(vol, owner, claims);
    UsedListable(v, lost, used);
    var refs, dirs := DirPass(vol, used, maps);
    var links := LinkPass(vol, used, refs, dirs);
    problems := TotalPass(vol, links);
    forall p ensures p in problems <==> Fault(v, lost, p) {
      AllFaults(v, lost, used, owner, claims, p);
      assert p in maps <==> p in claims || GroupFaults(v, owner, v.g.ncg, p);
      assert p in links <==> p in dirs || LinkFaults(v, used, |used|, p);
    }
    SilentIff(v, lost);
    if problems != [] { assert problems[0] in problems; }
  }

  lemma UsedListable(v: Vol, lost: set<nat>, us: seq<nat>)
    requires Walkable(v, lost) && us == ReadTo(v, lost, |v.inodes|) && Listed(v, us)
    ensures DirsListable(v, us)
  {
    hide Listable, Checked, Shape, ReadTo;
    ReadInTable(v, lost, |v.inodes|);
    forall i | 0 <= i < |us| && v.inodes[us[i]].kind == Directory ensures Listable(v.g, v.img, v.inodes[us[i]]) {
      assert us[i] in us;
    }
  }

  /** The passes' reports together are the faults. */
  lemma AllFaults(v: Vol, lost: set<nat>, us: seq<nat>, owner: map<nat, nat>, claims: seq<Problem>, p: Problem)
    requires Shape(v) && 0 < v.g.fsize && 0 < v.g.bsize && us == ReadTo(v, lost, |v.inodes|) && Listed(v, us)
    requires Tallied(owner, claims, v.g.dsize, Extents(v, us), FaultsTo(v, lost, |v.inodes|))
    ensures Fault(v, lost, p) <==>
              || p in claims || GroupFaults(v, owner, v.g.ncg, p)
              || DirFaults(v, us, |us|, p) || LinkFaults(v, us, |us|, p) || TotalFaults(v, p)
  {
    hide Shape, ReadTo, Listed, Extents, ClaimFault, RecordFaults, GroupFaults, MapFault, DirFaults, LinkFaults, TotalFaults, OwnersAre;
    MapFaultIs(v, owner, Extents(v, us), p);
  }

  lemma MapFaultIs(v: Vol, owner: map<nat, nat>, xs: seq<Extent>, p: Problem)
    requires Shape(v) && OwnersAre(owner, v.g.dsize, xs)
    ensures GroupFaults(v, owner, v.g.ncg, p) <==> MapFault(v, xs, p)
  {
    hide Covered, First, Mul, ValidGeometry;
    forall cg: nat, f: nat | InData(v, cg, f) ensures f < v.g.dsize { InSlice(v, cg, f); }
    if p.UsedButFree? {
      if p.frag in owner { var i := FirstExists(xs, p.frag); }
      FirstCovers(xs, p.frag);
    }
  }

  lemma InSlice(v: Vol, cg: nat, f: nat)
    requires Shape(v) && InData(v, cg, f)
    ensures f < v.g.dsize
  {
    hide Mul;
  }

  /** Without a fault everything is as it should be, and the other way round. */
  lemma SilentIff(v: Vol, lost: set<nat>)
    requires Shape(v) && 0 < v.g.fsize && 0 < v.g.bsize
    ensures (forall p :: !Fault(v, lost, p)) <==> NoneLost(v, lost, |v.inodes|) && Consistent(v)
  {
    hide Shape, ReadTo, UsedTo, Listed, Extents, ClaimFault, RecordFaults, MapFault, DirFaults, LinkFaults, TotalFaults, ClaimsOk, MapsFine, InodeSound, DirFine, LinksFine, TotalsFine, NoneLost, Checked;
    ReadListed(v, lost);
    ReadInTable(v, lost, |v.inodes|);
    UsedInTable(v, |v.inodes|);
    var us := ReadTo(v, lost, |v.inodes|);
    SilentRecords(v, lost);
    SilentClaims(v.g.dsize, Extents(v, us));
    SilentMaps(v, Extents(v, us));
    SilentDirs(v, us);
    SilentLinks(v, us);
    SilentTotals(v);
    SoundList(v);
    if forall p :: !Fault(v, lost, p) {
      forall p
        ensures !ClaimFault(v.g.dsize, Extents(v, us), p) && !RecordFaults(v, lost, |v.inodes|, p) && !MapFault(v, Extents(v, us), p)
        ensures !DirFaults(v, us, |us|, p) && !LinkFaults(v, us, |us|, p) && !TotalFaults(v, p)
      {
        assert !Fault(v, lost, p);
      }
    }
  }

  lemma SoundList(v: Vol)
    requires Shape(v) && 0 < v.g.fsize && 0 < v.g.bsize
    ensures Listed(v, UsedTo(v, |v.inodes|))
    ensures var us := UsedTo(v, |v.inodes|);
      (forall n: nat | n < |v.inodes| && Checked(v, n) :: InodeSound(v, n)) <==> forall i | 0 <= i < |us| :: InodeSound(v, us[i])
  {
    hide Shape, UsedTo, InodeSound, Checked;
    UsedInTable(v, |v.inodes|);
    var us := UsedTo(v, |v.inodes|);
    forall i | 0 <= i < |us| ensures us[i] < |v.inodes| && Checked(v, us[i]) { assert us[i] in us; }
  }

  lemma SilentRecords(v: Vol, lost: set<nat>)
    requires Shape(v) && 0 < v.g.fsize && 0 < v.g.bsize
    ensures (forall p :: !RecordFaults(v, lost, |v.inodes|, p)) <==>
              NoneLost(v, lost, |v.inodes|) && forall n: nat | n < |v.inodes| && Checked(v, n) :: InodeSound(v, n)
  {
    hide Shape, Checked, DataBlocks, AllocSizes, ExpectedSectors;
    if forall p :: !RecordFaults(v, lost, |v.inodes|, p) {
      forall n: nat | n < |v.inodes| && Checked(v, n) ensures n !in lost && InodeSound(v, n) {
        var a, b := |DataBlocks(v.g, v.img, v.inodes[n])|, |AllocSizes(v.g, v.inodes[n].size)|;
        var p, q, r := Unreadable(n), BlockCountOff(n, a, b), SectorsOff(n, v.inodes[n].blocks, ExpectedSectors(v, n));
        assert !RecordFaults(v, lost, |v.inodes|, p) && !RecordFaults(v, lost, |v.inodes|, q) && !RecordFaults(v, lost, |v.inodes|, r);
        assert !RecordFault(v, lost, n, p) && !RecordFault(v, lost, n, q) && !RecordFault(v, lost, n, r);
      }
    }
  }

  lemma SilentClaims(dsize: nat, xs: seq<Extent>)
    ensures (forall p :: !ClaimFault(dsize, xs, p)) <==> ClaimsOk(dsize, xs)
  {
    hide Within;
    if forall p :: !ClaimFault(dsize, xs, p) {
      forall i: nat, f: nat | i < |xs| && Within(xs[i], f) ensures f < dsize {
        assert !ClaimFault(dsize, xs, OutOfRange(xs[i].ino, xs[i].pointer, f));
        assert !ExtentFault(dsize, xs, i, OutOfRange(xs[i].ino, xs[i].pointer, f));
      }
      forall i: nat, j: nat, f: nat | i < j < |xs| && Within(xs[i], f) ensures !Within(xs[j], f) {
        assert Covered(xs, f);
        var k := FirstExists(xs, f);
        var p := DoubleClaim(f, xs[k].ino, xs[j].ino, xs[j].pointer);
        assert k <= i;
        assert !ClaimFault(dsize, xs, p);
        assert !ExtentFault(dsize, xs, j, p);
      }
    }
  }

  lemma SilentMaps(v: Vol, xs: seq<Extent>)
    requires Shape(v)
    ensures (forall p :: !MapFault(v, xs, p)) <==> MapsFine(v, xs)
  {
    hide Covered, Mul, ValidGeometry, First;
    if forall p :: !MapFault(v, xs, p) {
      forall cg: nat, l: nat | cg < v.g.ncg && v.g.dblkno <= l < v.cgs[cg].ndblk && l < v.g.fpg ensures BitFine(v, xs, cg, l) {
        var f := CgBase(v.g, cg) + l;
        assert InData(v, cg, f) && f - CgBase(v.g, cg) == l;
        assert !MapFault(v, xs, Leaked(f));
        if Covered(xs, f) {
          var i := FirstExists(xs, f);
          assert !MapFault(v, xs, UsedButFree(f, xs[i].ino));
        }
      }
    }
    if MapsFine(v, xs) {
      forall p ensures !MapFault(v, xs, p) {
        if p.UsedButFree? || p.Leaked? {
          FirstCovers(xs, p.frag);
          forall cg: nat | InData(v, cg, p.frag) ensures BitFine(v, xs, cg, p.frag - CgBase(v.g, cg)) { }
        }
      }
    }
  }

  lemma SilentDirs(v: Vol, us: seq<nat>)
    requires Listed(v, us)
    ensures (forall p :: !DirFaults(v, us, |us|, p)) <==>
              forall i | 0 <= i < |us| && v.inodes[us[i]].kind == Directory :: DirFine(v, us, us[i])
  {
    hide DirEntries, Has, DirFault;
    if forall p :: !DirFaults(v, us, |us|, p) {
      forall i | 0 <= i < |us| && v.inodes[us[i]].kind == Directory ensures DirFine(v, us, us[i]) {
        forall p ensures !DirFault(DirEntries(v, us[i]), us, us[i], p) { assert !DirFaults(v, us, |us|, p); }
        SilentDir(DirEntries(v, us[i]), us, us[i]);
      }
    } else {
      var p :| DirFaults(v, us, |us|, p);
      var i: nat :| i < |us| && v.inodes[us[i]].kind == Directory && DirFault(DirEntries(v, us[i]), us, us[i], p);
      SilentDir(DirEntries(v, us[i]), us, us[i]);
    }
  }

  lemma SilentDir(es: seq<Entry>, us: seq<nat>, n: nat)
    ensures (forall p :: !DirFault(es, us, n, p)) <==>
              (forall i | 0 <= i < |es| :: EntryFine(us, n, es[i])) && Has(es, DOT) && Has(es, DOTDOT)
  {
    hide Has;
    if forall p :: !DirFault(es, us, n, p) {
      assert !DirFault(es, us, n, NoDot(n)) && !DirFault(es, us, n, NoDotDot(n));
      forall i | 0 <= i < |es| ensures EntryFine(us, n, es[i]) {
        assert es[i] in es && es[i] == Entry(es[i].name, es[i].ino);
        assert !DirFault(es, us, n, DotElsewhere(n, es[i].ino)) && !DirFault(es, us, n, DanglingEntry(n, es[i].name, es[i].ino));
      }
    }
  }

  lemma SilentLinks(v: Vol, us: seq<nat>)
    requires Listed(v, us)
    ensures (forall p :: !LinkFaults(v, us, |us|, p)) <==> forall i | 0 <= i < |us| :: LinksFine(v, us, us[i])
  {
    hide RefsIn;
    if forall p :: !LinkFaults(v, us, |us|, p) {
      forall i | 0 <= i < |us| ensures LinksFine(v, us, us[i]) {
        var p, q := Orphan(us[i]), LinksOff(us[i], v.inodes[us[i]].nlink, RefsIn(v, us, us[i]));
        assert !LinkFaults(v, us, |us|, p) && !LinkFaults(v, us, |us|, q);
        assert !LinkFault(v, us, us[i], p) && !LinkFault(v, us, us[i], q);
      }
    }
  }

  lemma SilentTotals(v: Vol)
    ensures (forall p :: !TotalFaults(v, p)) <==> TotalsFine(v)
  {
    hide Signed, Total;
    if forall p :: !TotalFaults(v, p) {
      forall field: Field ensures Signed(FieldOf(v.totals, field)) == FieldOf(Total(v.cgs), field) {
        var p := TotalOff(field, Signed(FieldOf(v.totals, field)), FieldOf(Total(v.cgs), field));
        assert !TotalFaults(v, p);
        assert !TotalFault(v, field, p);
      }
      assert Signed(FieldOf(v.totals, Directories)) == FieldOf(Total(v.cgs), Directories);
      assert Signed(FieldOf(v.totals, WholeBlocks)) == FieldOf(Total(v.cgs), WholeBlocks);
      assert Signed(FieldOf(v.totals, Inodes)) == FieldOf(Total(v.cgs), Inodes);
      assert Signed(FieldOf(v.totals, LooseFragments)) == FieldOf(Total(v.cgs), LooseFragments);
    }
  }
}
