/** Inodes coming into existence and going out of it, followed on the abstract tree. */
module Births {
  import opened Arith
  import opened Geometry
  import opened VolumeState
  import opened Alloc
  import opened Pointers
  import opened Inodes
  import opened Write
  import opened Extend
  import opened Dir
  import opened Directory
  import opened DirOps
  import opened InodeAlloc
  import opened Tree
  import opened Mirror
  import opened Steps

  /** `clear_inode`: every field zero. */
  function Blank(): Dinode { Dinode(Unset, 0, 0, seq(NDADDR, _ => 0), 0, 0, 0, 0) }

  /** An inode that holds nothing. */
  ghost predicate Holdless(d: Dinode) {
    d.size == 0 && |d.direct| == NDADDR && d.ib1 == 0 && d.ib2 == 0 && d.ib3 == 0 && d.blocks == 0
  }

  lemma HoldlessOk(v: Vol, n: nat)
    requires 0 < v.g.bsize && 0 < v.g.fsize && n < |v.inodes| && Holdless(v.inodes[n])
    ensures InodeOk(v, n) && Footprint(v, n) == [] && Data(v, n) == []
  {
    hide Reachable;
    var d := v.inodes[n];
    assert DataBlocks(v.g, v.img, d) == [];
    assert PtrBlocks(v.g, v.img, d) == [];
    MulZero(v.g.frag);
    MulZero(v.g.nspf);
  }

  // --- one slot flipped ------------------------------------------------------

  lemma SlotOf(v: Vol, cg: nat, l: nat)
    requires Shape(v) && cg < v.g.ncg && l < v.g.ipg
    ensures var n := Mul(cg, v.g.ipg) + l; n < |v.inodes| && Quot(n, v.g.ipg) == cg && Rem(n, v.g.ipg) == l
  {
    GroupRange(v.g, cg);
    Decompose(cg, l, v.g.ipg);
  }

  /** After a flip exactly the flipped slot's bit has changed. */
  lemma UsedAfterFlip(v: Vol, w: Vol, cg: nat, l: nat, val: bool, m: nat)
    requires Shape(v) && Shape(w) && cg < v.g.ncg && l < v.g.ipg && w.g == v.g && |w.inodes| == |v.inodes| && m < |v.inodes|
    requires w.cgs[cg].iused == v.cgs[cg].iused[l := val] && forall i | 0 <= i < v.g.ncg && i != cg :: w.cgs[i] == v.cgs[i]
    ensures Used(w, m) == if m == Mul(cg, v.g.ipg) + l then val else Used(v, m)
  {
    SlotOf(v, cg, l);
    GroupOf(v.g, m);
    if m != Mul(cg, v.g.ipg) + l {
      Recompose(m, v.g.ipg);
    }
  }

  /** Inodes 0 and 1 are reserved, so a free slot is never one of them. */
  lemma FreshNumber(v: Vol, cg: nat, l: nat)
    requires CountsOk(v) && cg < v.g.ncg && l < v.g.ipg && !Bit(v, cg, l)
    ensures Mul(cg, v.g.ipg) + l >= ROOT
  {
    CountsBits(v);
    if cg > 0 { MulAdd(1, cg - 1, v.g.ipg); } else { MulZero(v.g.ipg); }
  }

  /** Flipping the record of an inode that owns nothing leaves all other files alone. */
  lemma FlipFiles(v: Vol, w: Vol, live: set<nat>, live': set<nat>, n: nat)
    requires FilesOk(v, live) && w.g == v.g && w.img == v.img && w.own == v.own && n < |v.inodes|
    requires |w.inodes| == |v.inodes| && forall m | 0 <= m < |v.inodes| && m != n :: w.inodes[m] == v.inodes[m]
    requires forall b | b in v.own :: v.own[b].ino != n
    requires Holdless(w.inodes[n]) && live' - {n} == live - {n}
    ensures FilesOk(w, live')
    ensures forall m | m in live && m != n :: m < |v.inodes| && Data(w, m) == Data(v, m)
  {
    hide InodeOk, Footprint, Contents, Region, Holdless;
    HoldlessOk(w, n);
    forall m | m in live && m != n
      ensures m < |v.inodes| && InodeOk(w, m) && Footprint(w, m) == Footprint(v, m) && Data(w, m) == Data(v, m)
    {
      UntouchedInode(v, w, m);
    }
    forall m | m in live' ensures m == n || m in live - {n} { assert m == n || m in live' - {n}; }
    forall b | b in v.own ensures v.own[b].ino in live' { assert v.own[b].ino in live - {n}; }
  }

  /** What a flip leaves alone, with only the slot's own bit, record and counts changed. */
  ghost predicate Flipped(v: Vol, w: Vol, cg: nat, l: nat, val: bool, n: nat) {
    && Shape(v) && Shape(w) && cg < v.g.ncg && l < v.g.ipg && n == Mul(cg, v.g.ipg) + l < |v.inodes|
    && w.g == v.g && w.img == v.img && w.own == v.own && |w.inodes| == |v.inodes|
    && (forall m | 0 <= m < |v.inodes| && m != n :: w.inodes[m] == v.inodes[m])
    && w.cgs[cg].iused == v.cgs[cg].iused[l := val] && (forall i | 0 <= i < v.g.ncg && i != cg :: w.cgs[i] == v.cgs[i])
  }

  /** The tree without, or with a newborn, inode `n` mirrors the flipped volume. */
  lemma FlipMirrors(v: Vol, w: Vol, t: Tree, u: Tree, cg: nat, l: nat, val: bool, n: nat)
    requires Mirrors(v, t) && Flipped(v, w, cg, l, val, n) && BlocksOk(w) && CountsOk(w)
    requires Holdless(w.inodes[n]) && ROOT <= n && w.inodes[n].nlink < MAXLINKS && forall b | b in v.own :: v.own[b].ino != n
    requires n !in u.parents && (forall d | d in u.parents :: SameUnder(t, u, d))
    requires u.kinds == if val then t.kinds[n := w.inodes[n].kind] else t.kinds - {n}
    requires u.bytes == (if val then t.bytes[n := []] else t.bytes - {n}) && u.devices == t.devices - {n}
    requires (w.inodes[n].kind == Unset) == !val
    ensures Mirrors(w, u)
  {
    hide Flipped, Sound, CountsOk, TableOk, DirsMatch, Holdless, SameUnder, BytesMatch;
    FlipSound(v, w, t, u, cg, l, val, n);
    FlipTable(v, w, t, u, cg, l, val, n);
    FlipDirs(v, w, t, u, n);
    FlipBytes(v, w, t, u, cg, l, val, n);
  }

  lemma FlipSound(v: Vol, w: Vol, t: Tree, u: Tree, cg: nat, l: nat, val: bool, n: nat)
    requires Mirrors(v, t) && Flipped(v, w, cg, l, val, n) && BlocksOk(w)
    requires Holdless(w.inodes[n]) && forall b | b in v.own :: v.own[b].ino != n
    requires u.kinds.Keys - {n} == t.kinds.Keys - {n}
    ensures Sound(w, u.kinds.Keys) && w.g == v.g && |w.inodes| == |v.inodes|
    ensures 0 < w.g.bsize && forall m | m in t.kinds && m != n :: m < |v.inodes| && w.inodes[m] == v.inodes[m] && Data(w, m) == Data(v, m)
  {
    hide FilesOk, BlocksOk, CountsOk, TableOk, DirsMatch, Holdless, BytesMatch, Data, Shape;
    FlipFiles(v, w, t.kinds.Keys, u.kinds.Keys, n);
    MirrorFacts(v, t);
  }

  lemma FlipTable(v: Vol, w: Vol, t: Tree, u: Tree, cg: nat, l: nat, val: bool, n: nat)
    requires Mirrors(v, t) && Flipped(v, w, cg, l, val, n) && ROOT <= n && w.inodes[n].nlink < MAXLINKS
    requires u.kinds == if val then t.kinds[n := w.inodes[n].kind] else t.kinds - {n}
    requires (w.inodes[n].kind == Unset) == !val
    ensures TableOk(w, u)
  {
    hide Sound, CountsOk, DirsMatch, BytesMatch, Shape, Used;
    forall m: nat | m < |v.inodes| ensures Used(w, m) == if m == n then val else Used(v, m) {
      UsedAfterFlip(v, w, cg, l, val, m);
    }
  }

  lemma FlipDirs(v: Vol, w: Vol, t: Tree, u: Tree, n: nat)
    requires Mirrors(v, t) && n !in u.parents && (forall d | d in u.parents :: SameUnder(t, u, d))
    requires u.kinds.Keys - {n} == t.kinds.Keys - {n}
    requires 0 < w.g.bsize && |w.inodes| == |v.inodes|
    requires 0 < v.g.bsize && forall m | m in t.kinds && m != n :: m < |v.inodes| && w.inodes[m] == v.inodes[m] && Data(w, m) == Data(v, m)
    ensures DirsMatch(w, u)
  {
    hide Sound, CountsOk, TableOk, BytesMatch, IsDir, Lists, Listing, Data;
    forall d | d in u.parents ensures d in u.kinds && IsDir(w, d) && Lists(Listing(w, d), u, d) {
      assert SameUnder(t, u, d);
      DirKept(v, w, d);
      ListsKept(Listing(v, d), t, u, d);
      assert d in t.kinds.Keys - {n};
    }
  }

  lemma FlipBytes(v: Vol, w: Vol, t: Tree, u: Tree, cg: nat, l: nat, val: bool, n: nat)
    requires Flipped(v, w, cg, l, val, n) && Holdless(w.inodes[n])
    requires Mirrors(v, t) && n !in u.parents && (forall d | d in u.parents :: SameUnder(t, u, d))
    requires u.kinds == if val then t.kinds[n := w.inodes[n].kind] else t.kinds - {n}
    requires u.bytes == (if val then t.bytes[n := []] else t.bytes - {n}) && u.devices == t.devices - {n}
    requires 0 < w.g.bsize && forall m | m in t.kinds && m != n :: m < |v.inodes| && w.inodes[m] == v.inodes[m] && Data(w, m) == Data(v, m)
    ensures BytesMatch(w, u)
  {
    hide Sound, CountsOk, TableOk, DirsMatch, Data, Holdless, Shape;
    MirrorFacts(v, t);
    assert 0 < w.g.fsize by { SoundFsize(v, t.kinds.Keys); }
    HoldlessOk(w, n);
    BytesApart(v, t);
  }

  lemma SoundFsize(v: Vol, live: set<nat>)
    requires Sound(v, live)
    ensures 0 < v.g.fsize
  {
    hide BlocksOk;
  }

  // --- birth -----------------------------------------------------------------

  /** `initialize_inode`: a blank record with its type and link count. */
  function Fresh(kind: FileType, nlink: nat): Dinode { Blank().(kind := kind, nlink := nlink) }

  lemma FreshHoldless(kind: FileType, nlink: nat)
    ensures Holdless(Fresh(kind, nlink)) && Holdless(Blank())
  {
  }

  lemma FlippedBy(v: Vol, cg: nat, l: nat, val: bool, d: Dinode, nifree: nat, ndir: nat, tifree: nat, tdir: nat, rotor: nat)
    requires BlocksOk(v) && cg < v.g.ncg && l < v.g.ipg
    ensures var w := Flip(v, cg, l, val, d, nifree, ndir, tifree, tdir, rotor);
      Flipped(v, w, cg, l, val, Mul(cg, v.g.ipg) + l) && BlocksOk(w) && w.inodes[Mul(cg, v.g.ipg) + l] == d
  {
    hide GroupsOk, OwnOk;
    FlipShape(v, cg, l, val, d, nifree, ndir, tifree, tdir, rotor);
    GroupRange(v.g, cg);
  }

  lemma Unowned(v: Vol, t: Tree, n: nat)
    requires Mirrors(v, t) && n !in t.kinds
    ensures forall b | b in v.own :: v.own[b].ino != n
  {
    hide BlocksOk, CountsOk, TableOk, DirsMatch, BytesMatch, InodeOk, Footprint;
  }

  lemma UnusedSlot(v: Vol, t: Tree, cg: nat, l: nat)
    requires Mirrors(v, t) && cg < v.g.ncg && l < v.g.ipg && !Bit(v, cg, l)
    ensures Mul(cg, v.g.ipg) + l !in t.kinds && ROOT <= Mul(cg, v.g.ipg) + l && BlocksOk(v) && CountsOk(v)
  {
    hide BlocksOk, FilesOk, CountsOk, DirsMatch, BytesMatch, Shape;
    SlotOf(v, cg, l);
    FreshNumber(v, cg, l);
  }

  lemma Born(v: Vol, t: Tree, cg: nat, l: nat, kind: FileType, nlink: nat)
    requires Mirrors(v, t) && cg < v.g.ncg && l < v.g.ipg && !Bit(v, cg, l) && kind != Unset && nlink < MAXLINKS
    requires 0 < v.cgs[cg].cs.nifree && 0 < v.totals.nifree
    ensures Mirrors(Enlist(v, cg, l, Fresh(kind, nlink), kind == Directory), Birth(t, Mul(cg, v.g.ipg) + l, kind))
  {
    hide Mirrors, BlocksOk, CountsOk, Flipped, Fresh, Holdless, Bit;
    MirrorCounts(v, t);
    var n, w := Mul(cg, v.g.ipg) + l, Enlist(v, cg, l, Fresh(kind, nlink), kind == Directory);
    UnusedSlot(v, t, cg, l);
    Unowned(v, t, n);
    SlotOf(v, cg, l);
    FlippedBy(v, cg, l, true, Fresh(kind, nlink), w.cgs[cg].cs.nifree, w.cgs[cg].cs.ndir, w.totals.nifree, w.totals.ndir, l);
    BornCounts(v, cg, l, kind, nlink);
    FreshHoldless(kind, nlink);
    FreshIs(kind, nlink);
    BirthSame(v, t, n, kind);
    FlipMirrors(v, w, t, Birth(t, n, kind), cg, l, true, n);
  }

  lemma FreshIs(kind: FileType, nlink: nat)
    ensures Fresh(kind, nlink).kind == kind && Fresh(kind, nlink).nlink == nlink
  {
  }

  lemma BornCounts(v: Vol, cg: nat, l: nat, kind: FileType, nlink: nat)
    requires CountsOk(v) && cg < v.g.ncg && l < v.g.ipg && !Bit(v, cg, l) && 0 < v.cgs[cg].cs.nifree && 0 < v.totals.nifree
    requires Mul(cg, v.g.ipg) + l >= ROOT
    ensures CountsOk(Enlist(v, cg, l, Fresh(kind, nlink), kind == Directory))
  {
    hide CountsOk;
    CountsShape(v);
    SlotOf(v, cg, l);
    FlipCounts(v, Enlist(v, cg, l, Fresh(kind, nlink), kind == Directory), cg, l, true, Fresh(kind, nlink));
  }

  lemma BirthSame(v: Vol, t: Tree, n: nat, kind: FileType)
    requires Mirrors(v, t) && n !in t.kinds
    ensures n !in Birth(t, n, kind).parents && forall d | d in Birth(t, n, kind).parents :: SameUnder(t, Birth(t, n, kind), d)
  {
    hide Sound, CountsOk, TableOk, BytesMatch, IsDir, Lists, Listing;
  }

  /** `allocate_inode` followed by `initialize_inode`. */
  method NewInode(vol: Volume, preferred: nat, kind: FileType, nlink: nat, ghost t: Tree) returns (r: Result<nat>)
    requires Mirrors(vol.View(), t) && preferred < |vol.inodes| && kind != Unset && nlink < MAXLINKS
    modifies vol
    ensures r.Ok? ==> r.value !in t.kinds && ROOT <= r.value < old(|vol.inodes|) && r.value < U32
    ensures r.Ok? ==> Mirrors(vol.View(), Birth(t, r.value, kind)) && vol.inodes == old(vol.inodes)[r.value := Fresh(kind, nlink)]
    ensures r.Ok? ==> Shape(old(vol.View())) && exists cg: nat, l: nat ::
              cg < vol.g.ncg && l < vol.g.ipg && FirstChoice(old(vol.View()), preferred, cg, l) && r.value == Mul(cg, vol.g.ipg) + l
    ensures r.Err? ==> vol.View() == old(vol.View()) && forall n: nat | ROOT <= n < |vol.inodes| :: n in t.kinds
  {
    hide Mirrors, BlocksOk, CountsOk, Fresh, Bit, Used, Enlist, Birth, ValidGeometry, FirstChoice;
    ghost var v := vol.View();
    MirrorCounts(v, t);
    ghost var cg, l;
    r, cg, l := AllocateInode(vol, preferred, kind == Directory);
    if r.Err? {
      AllInTree(v, t);
      return;
    }
    Initialized(v, vol.View(), cg, l, Fresh(kind, nlink), kind == Directory);
    vol.inodes := vol.inodes[r.value := Fresh(kind, nlink)];
    UnusedSlot(v, t, cg, l);
    InodeNumbersFit(v);
    Born(v, t, cg, l, kind, nlink);
  }

  /** Writing the record of a slot just handed out is handing it out with that record. */
  lemma Initialized(v: Vol, w: Vol, cg: nat, l: nat, d: Dinode, directory: bool)
    requires Shape(v) && cg < v.g.ncg && l < v.g.ipg && 0 < v.cgs[cg].cs.nifree && 0 < v.totals.nifree
    requires Mul(cg, v.g.ipg) + l < |v.inodes| && w == Enlist(v, cg, l, v.inodes[Mul(cg, v.g.ipg) + l], directory)
    ensures var n := Mul(cg, v.g.ipg) + l;
      && |w.inodes| == |v.inodes| && w.inodes[n := d] == v.inodes[n := d]
      && w.(inodes := w.inodes[n := d]) == Enlist(v, cg, l, d, directory)
  {
    hide ValidGeometry, Mul;
    var n := Mul(cg, v.g.ipg) + l;
    assert v.inodes[n := v.inodes[n]] == v.inodes;
  }

  lemma MirrorCounts(v: Vol, t: Tree)
    requires Mirrors(v, t)
    ensures CountsOk(v) && BlocksOk(v) && Shape(v)
  {
    hide BlocksOk, CountsOk, FilesOk, TableOk, DirsMatch, BytesMatch;
    CountsShape(v);
  }

  lemma AllInTree(v: Vol, t: Tree)
    requires Mirrors(v, t) && Shape(v) && forall n: nat | n < |v.inodes| :: Used(v, n)
    ensures forall n: nat | ROOT <= n < |v.inodes| :: n in t.kinds
  {
    hide Sound, CountsOk, DirsMatch, BytesMatch, Shape, Used;
  }

  // --- death -----------------------------------------------------------------

  /** Directory `n` read as a plain file, on its way out. */
  ghost function Demote(t: Tree, n: nat, data: seq<byte>): Tree {
    t.(parents := t.parents - {n}, bytes := t.bytes[n := data])
  }

  lemma Demoted(v: Vol, t: Tree, n: nat)
    requires Mirrors(v, t) && n in t.kinds
    ensures 0 < v.g.bsize && n < |v.inodes| && Mirrors(v, Demote(t, n, Data(v, n)))
  {
    hide Sound, CountsOk, TableOk, IsDir, Lists, Data;
    MirrorFacts(v, t);
    var u := Demote(t, n, Data(v, n));
    SameKindsTable(v, t, u);
    forall d | d in u.parents ensures IsDir(v, d) && Lists(Listing(v, d), u, d) {
      ListsKept(Listing(v, d), t, u, d);
    }
  }

  /** A used directory is counted, so its group has at least one. */
  lemma CountedDir(v: Vol, cg: nat, l: nat)
    requires CountsOk(v) && cg < v.g.ncg && l < v.g.ipg && Bit(v, cg, l)
    requires Mul(cg, v.g.ipg) + l >= ROOT && Mul(cg, v.g.ipg) + l < |v.inodes| && v.inodes[Mul(cg, v.g.ipg) + l].kind == Directory
    ensures 0 < v.cgs[cg].cs.ndir <= v.totals.ndir
  {
    hide Total, DirCount, Clear;
    assert GroupCounts(v, cg);
    GroupRange(v.g, cg);
    DirsAfter(v.cgs[cg].iused, v.inodes, Mul(cg, v.g.ipg), l, false, Blank(), v.g.ipg);
    InodeCountsFit(v, cg);
  }

  ghost function Gone(v: Vol, cg: nat, l: nat, directory: bool): Vol
    requires Shape(v) && cg < v.g.ncg && l < v.g.ipg && (directory ==> 0 < v.cgs[cg].cs.ndir && 0 < v.totals.ndir)
  {
    Discharge(v, cg, l, Blank(), directory)
  }

  lemma GoneCounts(v: Vol, cg: nat, l: nat, directory: bool)
    requires CountsOk(v) && cg < v.g.ncg && l < v.g.ipg && Bit(v, cg, l)
    requires Mul(cg, v.g.ipg) + l >= ROOT && Mul(cg, v.g.ipg) + l < |v.inodes|
    requires directory == (v.inodes[Mul(cg, v.g.ipg) + l].kind == Directory)
    ensures directory ==> 0 < v.cgs[cg].cs.ndir < U32 && 0 < v.totals.ndir < U32
    ensures CountsOk(Gone(v, cg, l, directory))
    ensures v.totals.nifree + 1 < U32 && v.cgs[cg].cs.nifree + 1 < U32
  {
    hide CountsOk;
    CountsShape(v);
    if directory { CountedDir(v, cg, l); }
    InodeCountsFit(v, cg);
    var w := Gone(v, cg, l, directory);
    FlipCounts(v, w, cg, l, false, Blank());
    InodeCountsFit(w, cg);
  }

  /** The volume after an empty inode is cleared and its bit given back. */
  lemma Buried(v: Vol, t: Tree, cg: nat, l: nat, directory: bool)
    requires Mirrors(v, t) && cg < v.g.ncg && l < v.g.ipg && Bit(v, cg, l)
    requires Mul(cg, v.g.ipg) + l in t.kinds && Mul(cg, v.g.ipg) + l !in t.parents && Mul(cg, v.g.ipg) + l < |v.inodes|
    requires directory == (v.inodes[Mul(cg, v.g.ipg) + l].kind == Directory)
    requires forall b | b in v.own :: v.own[b].ino != Mul(cg, v.g.ipg) + l
    ensures directory ==> 0 < v.cgs[cg].cs.ndir < U32 && 0 < v.totals.ndir < U32
    ensures v.totals.nifree + 1 < U32 && v.cgs[cg].cs.nifree + 1 < U32
    ensures Mirrors(Gone(v, cg, l, directory), Forget(t, Mul(cg, v.g.ipg) + l))
  {
    hide Mirrors, BlocksOk, CountsOk, Flipped, Holdless, Bit, Blank, Forget;
    MirrorCounts(v, t);
    InTable(v, t, Mul(cg, v.g.ipg) + l);
    var n := Mul(cg, v.g.ipg) + l;
    GoneCounts(v, cg, l, directory);
    var w := Gone(v, cg, l, directory);
    FlippedBy(v, cg, l, false, Blank(), w.cgs[cg].cs.nifree, w.cgs[cg].cs.ndir, w.totals.nifree, w.totals.ndir, v.cgs[cg].irotor);
    FreshHoldless(Unset, 0);
    BlankIs();
    ForgetSame(v, t, n);
    FlipMirrors(v, w, t, Forget(t, n), cg, l, false, n);
  }

  lemma BlankIs()
    ensures Blank().kind == Unset && Blank().nlink == 0
  {
  }

  lemma ForgetSame(v: Vol, t: Tree, n: nat)
    requires Mirrors(v, t)
    ensures Forget(t, n).kinds == t.kinds - {n} && Forget(t, n).bytes == t.bytes - {n} && Forget(t, n).devices == t.devices - {n}
    ensures n !in Forget(t, n).parents && forall d | d in Forget(t, n).parents :: SameUnder(t, Forget(t, n), d)
  {
    hide Mirrors;
  }

  /** `clear_inode` and `free_inode` on an inode that owns nothing any more. */
  method Bury(vol: Volume, n: nat, directory: bool, ghost t: Tree)
    requires Mirrors(vol.View(), t) && n in t.kinds && n !in t.parents && directory == (t.kinds[n] == Directory)
    requires forall b | b in vol.own :: vol.own[b].ino != n
    modifies vol
    ensures Mirrors(vol.View(), Forget(t, n)) && n < |old(vol.inodes)| && vol.inodes == old(vol.inodes)[n := Blank()]
  {
    hide Mirrors, BlocksOk, CountsOk, FilesOk, Bit, Used, ValidGeometry, OwnOk, GroupsOk, Blank, Forget;
    ghost var x := vol.View();
    MirrorFacts(x, t);
    InTable(x, t, n);
    ghost var cg, l := Quot(n, x.g.ipg), Rem(n, x.g.ipg);
    Buried(x, t, cg, l, directory);
    vol.inodes := vol.inodes[n := Blank()];
    ClearedShape(x, vol.View(), n);
    var r := FreeInode(vol, n, directory);
    assert vol.View() == Gone(x, cg, l, directory);
  }

  /** Frees an inode's blocks, clears its record and gives its number back. */
  method ReleaseInode(vol: Volume, n: nat, directory: bool, ghost t: Tree) returns (r: Result<()>)
    requires Mirrors(vol.View(), t) && n in t.kinds && directory == (t.kinds[n] == Directory)
    modifies vol, vol.image
    ensures r.Ok? && Mirrors(vol.View(), Forget(t, n)) && |vol.inodes| == old(|vol.inodes|)
    ensures forall m | 0 <= m < |vol.inodes| && m != n :: SameIdentity(old(vol.inodes[m]), vol.inodes[m])
  {
    hide Mirrors, BlocksOk, Forget, Data;
    ghost var v := vol.View();
    Demoted(v, t, n);
    ghost var u := Demote(t, n, Data(v, n));
    r := StoreBytes(vol, n, [], u);
    if r.Err? { return; }
    Bury(vol, n, directory, Fill(u, n, []));
    ForgetDemoted(t, n, Data(v, n));
  }

  lemma ForgetDemoted(t: Tree, n: nat, data: seq<byte>)
    ensures Forget(Fill(Demote(t, n, data), n, []), n) == Forget(t, n)
  {
    assert (t.bytes[n := data][n := []]) - {n} == t.bytes - {n};
    assert (t.devices - {n}) - {n} == t.devices - {n};
    assert (t.parents - {n}) - {n} == t.parents - {n};
  }

  lemma InTable(v: Vol, t: Tree, n: nat)
    requires Mirrors(v, t) && n in t.kinds
    ensures Shape(v) && ROOT <= n < |v.inodes| && Used(v, n)
    ensures var cg, l := Quot(n, v.g.ipg), Rem(n, v.g.ipg); cg < v.g.ncg && l < v.g.ipg && Bit(v, cg, l) && Mul(cg, v.g.ipg) + l == n
  {
    hide Sound, CountsOk, DirsMatch, BytesMatch;
    GroupOf(v.g, n);
    Recompose(n, v.g.ipg);
  }

  lemma ClearedShape(v: Vol, w: Vol, n: nat)
    requires Shape(v) && n < |v.inodes| && w == v.(inodes := v.inodes[n := Blank()])
    ensures Shape(w) && forall m: nat :: Used(w, m) == Used(v, m)
  {
  }
}
