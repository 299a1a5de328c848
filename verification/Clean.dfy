/** The invariant every operation keeps implies what the checker asks for. */
module Clean {
  import opened Arith
  import opened Geometry
  import opened VolumeState
  import opened Alloc
  import opened Pointers
  import opened Inodes
  import opened Reader
  import opened Write
  import opened Dir
  import opened Directory
  import opened DirOps
  import opened ListingOps
  import opened InodeAlloc
  import opened Tree
  import opened Mirror
  import opened Steps
  import opened Namespace
  import opened Run
  import opened Check

  // --- extents and claims ----------------------------------------------------

  /** Extents that match ledger claims of inodes below `k`, each on its own block. */
  ghost predicate Backed(own: map<nat, Claim>, xs: seq<Extent>, k: nat) {
    && (forall i | 0 <= i < |xs| :: xs[i].start in own && own[xs[i].start].frags == xs[i].count && own[xs[i].start].ino < k)
    && (forall i, j | 0 <= i < j < |xs| :: xs[i].start != xs[j].start)
  }

  ghost predicate OwnedBy(own: map<nat, Claim>, xs: seq<Extent>, n: nat) {
    && (forall i | 0 <= i < |xs| :: xs[i].start in own && own[xs[i].start] == Claim(n, xs[i].count))
    && (forall i, j | 0 <= i < j < |xs| :: xs[i].start != xs[j].start)
  }

  lemma BackedMore(own: map<nat, Claim>, xs: seq<Extent>, ys: seq<Extent>, n: nat)
    requires Backed(own, xs, n) && OwnedBy(own, ys, n)
    ensures Backed(own, xs + ys, n + 1)
  {
    var zs := xs + ys;
    forall i, j | 0 <= i < j < |zs| ensures zs[i].start != zs[j].start {
      if j >= |xs| && i < |xs| {
        assert own[zs[i].start].ino < n && own[zs[j].start].ino == n;
      }
    }
  }

  lemma BackedLater(own: map<nat, Claim>, xs: seq<Extent>, k: nat, m: nat)
    requires Backed(own, xs, k) && k <= m
    ensures Backed(own, xs, m)
  {
  }

  /** The extents of a sound inode are its claims. */
  lemma InodeBacked(v: Vol, n: nat)
    requires 0 < v.g.bsize && 0 < v.g.fsize && n < |v.inodes| && InodeOk(v, n)
    ensures OwnedBy(v.own, InodeExtents(v, n), n)
    ensures forall b | b in Footprint(v, n) :: exists i :: 0 <= i < |InodeExtents(v, n)| && InodeExtents(v, n)[i].start == b
  {
    hide DataBlocks, PtrBlocks, AllocSizes, SectorCount, Claimed, OwnedBy, DataExtents, PtrExtents, PointerCount;
    ClaimsBacked(v.g, v.own, n, DataBlocks(v.g, v.img, v.inodes[n]), AllocSizes(v.g, v.inodes[n].size), PtrBlocks(v.g, v.img, v.inodes[n]));
  }

  lemma ClaimsBacked(g: Geometry, own: map<nat, Claim>, n: nat, data: seq<nat>, sizes: seq<nat>, ptrs: seq<nat>)
    requires 0 < g.fsize && Claimed(g, own, n, data, sizes, ptrs)
    ensures var xs := DataExtents(g, n, data, sizes) + PtrExtents(g, n, ptrs);
      OwnedBy(own, xs, n) && forall b | b in data + ptrs :: exists i :: 0 <= i < |xs| && xs[i].start == b
  {
    hide Quot;
    var xs, all := DataExtents(g, n, data, sizes) + PtrExtents(g, n, ptrs), data + ptrs;
    forall i | 0 <= i < |xs| ensures xs[i].start == all[i] && xs[i].start in own && own[xs[i].start] == Claim(n, xs[i].count) {
      if i >= |data| { assert ptrs[i - |data|] in ptrs; }
    }
    forall b | b in all ensures exists i :: 0 <= i < |xs| && xs[i].start == b {
      var i :| 0 <= i < |all| && all[i] == b;
      assert xs[i].start == b;
    }
  }

  /** The extents up to and including inode `k`. */
  lemma ExtentsStep(v: Vol, k: nat)
    requires Shape(v) && 0 < v.g.bsize && 0 < v.g.fsize
    ensures Listed(v, UsedTo(v, k)) && Listed(v, UsedTo(v, k + 1)) && (Checked(v, k) ==> k < |v.inodes|)
    ensures Extents(v, UsedTo(v, k + 1)) == Extents(v, UsedTo(v, k)) + if Checked(v, k) then InodeExtents(v, k) else []
  {
    hide Shape, Checked, InodeExtents;
    UsedInTable(v, k);
    UsedInTable(v, k + 1);
    UsedIsListed(v, k);
    var us := UsedTo(v, k);
    if Checked(v, k) {
      assert UsedTo(v, k + 1)[..|us|] == us;
    } else {
      assert UsedTo(v, k + 1) == us;
      assert Extents(v, us) + [] == Extents(v, us);
    }
  }

  ghost predicate LiveBelow(v: Vol, live: set<nat>, k: nat)
    requires Shape(v)
  {
    forall n: nat | n < k && Checked(v, n) :: n in live
  }

  lemma {:induction false} AllBacked(v: Vol, live: set<nat>, k: nat)
    requires Shape(v) && FilesOk(v, live) && LiveBelow(v, live, k)
    ensures Listed(v, UsedTo(v, k)) && Backed(v.own, Extents(v, UsedTo(v, k)), k)
    decreases k
  {
    hide Shape, Checked, InodeExtents, Backed, OwnedBy, FilesOk, Extents, Listed, InodeOk, Footprint;
    FilesPositive(v, live);
    if k == 0 {
      NoneBacked(v.own);
      NoExtents(v);
    } else {
      AllBacked(v, live, k - 1);
      ExtentsStep(v, k - 1);
      var xs := Extents(v, UsedTo(v, k - 1));
      if Checked(v, k - 1) {
        FilesLive(v, live, k - 1);
        InodeBacked(v, k - 1);
        BackedMore(v.own, xs, InodeExtents(v, k - 1), k - 1);
      } else {
        BackedLater(v.own, xs, k - 1, k);
        assert xs + [] == xs;
      }
    }
  }

  lemma FilesPositive(v: Vol, live: set<nat>)
    requires FilesOk(v, live)
    ensures 0 < v.g.bsize && 0 < v.g.fsize
  {
  }

  lemma NoExtents(v: Vol)
    requires Shape(v) && 0 < v.g.bsize && 0 < v.g.fsize
    ensures UsedTo(v, 0) == [] && Listed(v, []) && Extents(v, []) == []
  {
  }

  lemma NoneBacked(own: map<nat, Claim>)
    ensures Backed(own, [], 0)
  {
  }

  /** Claims on distinct good blocks never meet. */
  lemma BackedClaims(v: Vol, xs: seq<Extent>, k: nat)
    requires BlocksOk(v) && Backed(v.own, xs, k)
    ensures ClaimsOk(v.g.dsize, xs)
  {
    hide CgOk, GroupsOk, ValidGeometry, GoodBlock;
    forall i, f: nat | 0 <= i < |xs| && Within(xs[i], f) ensures f < v.g.dsize {
      GoodBlockBounds(v.g, xs[i].start);
    }
    forall i, j, f: nat | 0 <= i < j < |xs| && Within(xs[i], f) ensures !Within(xs[j], f) {
      GoodBlocksApart(v.g, xs[i].start, xs[j].start);
    }
  }

  /** Every claim of a live inode shows up as an extent. */
  lemma {:induction false} ClaimListed(v: Vol, live: set<nat>, k: nat, b: nat)
    requires Shape(v) && FilesOk(v, live) && b in v.own && v.own[b].ino < k && Checked(v, v.own[b].ino) && LiveBelow(v, live, k)
    ensures Listed(v, UsedTo(v, k)) && exists i :: 0 <= i < |Extents(v, UsedTo(v, k))| && Extents(v, UsedTo(v, k))[i].start == b
    decreases k
  {
    hide Shape, Checked, InodeExtents, FilesOk, Extents, Listed, InodeOk, Footprint;
    FilesPositive(v, live);
    ExtentsStep(v, k - 1);
    var xs, ys := Extents(v, UsedTo(v, k - 1)), Extents(v, UsedTo(v, k));
    if v.own[b].ino == k - 1 {
      FilesLive(v, live, k - 1);
      InodeBacked(v, k - 1);
      Reaches(v, live, b);
      var i :| 0 <= i < |InodeExtents(v, k - 1)| && InodeExtents(v, k - 1)[i].start == b;
      assert ys[|xs| + i].start == b;
    } else {
      ClaimListed(v, live, k - 1, b);
      var i :| 0 <= i < |xs| && xs[i].start == b;
      assert ys[i].start == b;
    }
  }

  lemma Reaches(v: Vol, live: set<nat>, b: nat)
    requires FilesOk(v, live) && b in v.own
    ensures v.own[b].ino in live && v.own[b].ino < |v.inodes| && b in Footprint(v, v.own[b].ino)
  {
    hide InodeOk, Footprint;
  }

  lemma TakenCovered(g: Geometry, own: map<nat, Claim>, xs: seq<Extent>, k: nat, cg: nat, l: nat)
    requires ValidGeometry(g) && Backed(own, xs, k) && Taken(g, own, cg, l)
    requires forall b | b in own :: exists i :: 0 <= i < |xs| && xs[i].start == b
    ensures Covered(xs, CgBase(g, cg) + l)
  {
    hide Mul, Capacity;
    var o := Rem(l, g.frag);
    var b, f := CgBase(g, cg) + l - o, CgBase(g, cg) + l;
    var i :| 0 <= i < |xs| && xs[i].start == b;
    assert Within(xs[i], f);
  }

  lemma CoveredTaken(g: Geometry, own: map<nat, Claim>, xs: seq<Extent>, k: nat, cg: nat, l: nat)
    requires ValidGeometry(g) && OwnOk(g, own) && Backed(own, xs, k) && cg < g.ncg && l < g.fpg && Covered(xs, CgBase(g, cg) + l)
    ensures Taken(g, own, cg, l)
  {
    hide ValidGeometry, GoodBlock;
    var i :| 0 <= i < |xs| && Within(xs[i], CgBase(g, cg) + l);
    assert xs[i].start in own;
    SameBlock(g, xs[i].start, cg, l);
  }

  /** The good block around a fragment of a group starts at the fragment's aligned base. */
  lemma SameBlock(g: Geometry, b: nat, cg: nat, l: nat)
    requires ValidGeometry(g) && GoodBlock(g, b) && cg < g.ncg && l < g.fpg && b <= CgBase(g, cg) + l < b + g.frag
    ensures b == CgBase(g, cg) + l - Rem(l, g.frag)
  {
    Recompose(b, g.fpg);
    var c, loc := Quot(b, g.fpg), Rem(b, g.fpg);
    if c < cg { MulLess(c, cg, g.fpg); }
    if cg < c { MulLess(cg, c, g.fpg); }
    RemOffset(loc, l - loc, g.frag);
  }

  /** Where the ledger is exact, so are the free maps the checker compares. */
  lemma MapsClean(v: Vol, xs: seq<Extent>)
    requires BlocksOk(v) && Backed(v.own, xs, |v.inodes|)
    requires forall b | b in v.own :: exists i :: 0 <= i < |xs| && xs[i].start == b
    ensures MapsFine(v, xs)
  {
    hide Backed, Covered, Taken, ValidGeometry;
    forall cg: nat, l: nat | cg < v.g.ncg && v.g.dblkno <= l < v.cgs[cg].ndblk && l < v.g.fpg ensures BitFine(v, xs, cg, l) {
      assert CgOk(v.g, v.own, cg, v.cgs[cg]);
      if Taken(v.g, v.own, cg, l) { TakenCovered(v.g, v.own, xs, |v.inodes|, cg, l); }
      if Covered(xs, CgBase(v.g, cg) + l) { CoveredTaken(v.g, v.own, xs, |v.inodes|, cg, l); }
    }
  }

  // --- sectors ---------------------------------------------------------------

  lemma {:induction false} FragTotalConcat(xs: seq<Extent>, ys: seq<Extent>)
    ensures FragTotal(xs + ys) == FragTotal(xs) + FragTotal(ys)
    decreases |ys|
  {
    if ys == [] {
      assert xs + ys == xs;
    } else {
      var n := |ys| - 1;
      assert (xs + ys)[..|xs| + n] == xs + ys[..n];
      FragTotalConcat(xs, ys[..n]);
    }
  }

  lemma {:induction false} DataTotal(g: Geometry, m: nat, bs: seq<nat>, sizes: seq<nat>)
    requires 0 < g.fsize && |bs| == |sizes|
    ensures FragTotal(DataExtents(g, m, bs, sizes)) == FragSum(g, sizes)
    decreases |bs|
  {
    if bs != [] {
      var n := |bs| - 1;
      DataTotal(g, m, bs[..n], sizes[..n]);
      assert DataExtents(g, m, bs, sizes)[..n] == DataExtents(g, m, bs[..n], sizes[..n]);
    }
  }

  lemma {:induction false} PtrTotal(g: Geometry, m: nat, ps: seq<nat>)
    ensures FragTotal(PtrExtents(g, m, ps)) == Mul(|ps|, g.frag)
    decreases |ps|
  {
    if ps == [] {
      MulZero(g.frag);
    } else {
      var n := |ps| - 1;
      PtrTotal(g, m, ps[..n]);
      assert PtrExtents(g, m, ps)[..n] == PtrExtents(g, m, ps[..n]);
      MulSucc(n, g.frag);
    }
  }

  lemma InodeClean(v: Vol, n: nat)
    requires ValidGeometry(v.g) && 0 < v.g.bsize && 0 < v.g.fsize && n < |v.inodes| && InodeOk(v, n)
    ensures InodeSound(v, n)
  {
    hide DataBlocks, PtrBlocks, AllocSizes, FragTotal, DataExtents, PtrExtents, FragSum, Mul;
    var data, ptrs, sizes := DataBlocks(v.g, v.img, v.inodes[n]), PtrBlocks(v.g, v.img, v.inodes[n]), AllocSizes(v.g, v.inodes[n].size);
    FragTotalConcat(DataExtents(v.g, n, data, sizes), PtrExtents(v.g, n, ptrs));
    DataTotal(v.g, n, data, sizes);
    PtrTotal(v.g, n, ptrs);
    assert v.g.fsize / SECTOR == v.g.nspf;
  }

  // --- link counts -----------------------------------------------------------

  /** Names in directory `d` that lead to `n`, dots included. */
  ghost function NamesFor(es: seq<Entry>, n: nat): set<Name> { set i | 0 <= i < |es| && es[i].ino == n :: es[i].name }

  lemma {:induction false} CountIsNames(es: seq<Entry>, n: nat)
    requires Distinct(es)
    ensures CountIno(es, n) == |NamesFor(es, n)|
    decreases |es|
  {
    hide NamesFor;
    if es == [] {
      NoNames(n);
    } else {
      var k := |es| - 1;
      CountIsNames(es[..k], n);
      NamesStep(es, n);
    }
  }

  lemma NoNames(n: nat)
    ensures NamesFor([], n) == {}
  {
  }

  lemma NamesStep(es: seq<Entry>, n: nat)
    requires Distinct(es) && es != []
    ensures var k := |es| - 1; |NamesFor(es, n)| == |NamesFor(es[..k], n)| + One(es[k].ino == n)
  {
    hide CountIno;
    var k := |es| - 1;
    var fs, name := es[..k], es[k].name;
    forall x ensures x in NamesFor(es, n) <==> x in NamesFor(fs, n) || (es[k].ino == n && x == name) {
      if x in NamesFor(fs, n) {
        var i :| 0 <= i < |fs| && fs[i].ino == n && fs[i].name == x;
        assert es[i] == fs[i];
      }
      if x in NamesFor(es, n) {
        var i :| 0 <= i < |es| && es[i].ino == n && es[i].name == x;
        if i < k { assert fs[i] == es[i]; }
      }
    }
    assert name !in NamesFor(fs, n);
    if es[k].ino == n { assert NamesFor(es, n) == NamesFor(fs, n) + {name}; } else { assert NamesFor(es, n) == NamesFor(fs, n); }
  }

  /** Names of `n` that stand in directory `d`, and in directories below `k`. */
  ghost function KeysAt(t: Tree, n: nat, d: nat): set<Key> { set x | x in Keys(t, n) && x.0 == d }
  ghost function KeysBelow(t: Tree, n: nat, k: nat): set<Key> { set x | x in Keys(t, n) && x.0 < k }
  ghost function ChildrenBelow(t: Tree, n: nat, k: nat): set<nat> { set d | d in Children(t, n) && d < k }

  ghost function Seconds(s: set<Key>): set<Name> { set x | x in s :: x.1 }

  lemma {:induction false} SecondsCount(s: set<Key>, d: nat)
    requires forall x | x in s :: x.0 == d
    ensures |Seconds(s)| == |s|
    decreases |s|
  {
    if s == {} {
      assert Seconds(s) == {};
    } else {
      var x :| x in s;
      var r := s - {x};
      SecondsCount(r, d);
      assert Seconds(s) == Seconds(r) + {x.1};
      assert x.1 !in Seconds(r);
    }
  }

  ghost function DotNames(t: Tree, d: nat, n: nat): set<Name>
    requires d in t.parents
  {
    (if d == n then {DOT} else {}) + (if t.parents[d] == n then {DOTDOT} else {})
  }

  lemma DotCount(t: Tree, d: nat, n: nat)
    requires d in t.parents
    ensures |DotNames(t, d, n)| == One(d == n) + One(t.parents[d] == n)
    ensures forall name :: name in DotNames(t, d, n) <==> (name == DOT && d == n) || (name == DOTDOT && t.parents[d] == n)
  {
    assert |DOT| != |DOTDOT|;
  }

  lemma InSeconds(t: Tree, n: nat, d: nat, name: Name)
    ensures name in Seconds(KeysAt(t, n, d)) <==> (d, name) in Keys(t, n)
  {
    hide Keys;
    if (d, name) in Keys(t, n) { assert (d, name) in KeysAt(t, n, d); }
  }

  /** The records of directory `d` that name `n`: its plain names there, and the dots. */
  lemma DirRefs(es: seq<Entry>, t: Tree, d: nat, n: nat)
    requires TreeOk(t) && d in t.parents && Lists(es, t, d)
    ensures CountIno(es, n) == |KeysAt(t, n, d)| + One(d == n) + One(t.parents[d] == n)
  {
    hide DirsOk, NamesOk, BytesOk, CountIno, DotNames, NamesFor, Seconds, Keys, Resolve, Distinct;
    CountIsNames(es, n);
    var plain, dots := Seconds(KeysAt(t, n, d)), DotNames(t, d, n);
    SecondsCount(KeysAt(t, n, d), d);
    DotCount(t, d, n);
    forall name ensures name in NamesFor(es, n) <==> name in plain || name in dots {
      NameListed(es, t, d, n, name);
      InSeconds(t, n, d, name);
    }
    assert NamesFor(es, n) == plain + dots;
    forall name | name in plain ensures name !in dots {
      InSeconds(t, n, d, name);
      PlainKey(t, n, d, name);
    }
    assert plain !! dots;
  }

  lemma PlainKey(t: Tree, n: nat, d: nat, name: Name)
    requires LinksOk(t) && (d, name) in Keys(t, n)
    ensures PlainName(name)
  {
  }

  lemma NameListed(es: seq<Entry>, t: Tree, d: nat, n: nat, name: Name)
    requires LinksOk(t) && d in t.parents && Lists(es, t, d)
    ensures name in NamesFor(es, n) <==> Resolve(t, d, name) == Some(n)
    ensures Resolve(t, d, name) == Some(n) <==> (name == DOT && d == n) || (name == DOTDOT && t.parents[d] == n) || (d, name) in Keys(t, n)
  {
    var e := Entry(name, n);
    if name in NamesFor(es, n) {
      var i :| 0 <= i < |es| && es[i].ino == n && es[i].name == name;
      assert es[i] == e && es[i] in es;
    }
    if Resolve(t, d, name) == Some(n) {
      assert e in es;
      var i :| 0 <= i < |es| && es[i] == e;
    }
    if (d, name) in Keys(t, n) { assert PlainName(name); }
  }

  lemma BelowStep(t: Tree, n: nat, k: nat)
    ensures |KeysBelow(t, n, k + 1)| == |KeysBelow(t, n, k)| + |KeysAt(t, n, k)|
    ensures |ChildrenBelow(t, n, k + 1)| == |ChildrenBelow(t, n, k)| + One(k in t.parents && t.parents[k] == n)
  {
    hide Keys;
    assert KeysBelow(t, n, k + 1) == KeysBelow(t, n, k) + KeysAt(t, n, k);
    assert KeysBelow(t, n, k) !! KeysAt(t, n, k);
    var c := if k in t.parents && t.parents[k] == n then {k} else {};
    assert ChildrenBelow(t, n, k + 1) == ChildrenBelow(t, n, k) + c;
    assert ChildrenBelow(t, n, k) !! c;
  }

  lemma NotADirectory(t: Tree, n: nat, k: nat)
    requires TreeOk(t) && k !in t.parents
    ensures KeysAt(t, n, k) == {}
  {
    hide DirsOk, NamesOk, BytesOk;
  }

  /** What the checker counts for `n` after the inodes below `k`. */
  lemma {:induction false} RefsCounted(v: Vol, t: Tree, n: nat, k: nat)
    requires FsOk(v, t) && k <= |v.inodes| && Shape(v) && Listed(v, UsedTo(v, k))
    ensures RefsIn(v, UsedTo(v, k), n) == |KeysBelow(t, n, k)| + One(n in t.parents && n < k) + |ChildrenBelow(t, n, k)|
    decreases k, 1
  {
    hide FsOk, Shape, Checked, KeysAt, KeysBelow, ChildrenBelow, DirEntries, CountIno;
    if k == 0 {
      NothingBelow(t, n);
    } else {
      RefsCountedStep(v, t, n, k - 1);
    }
  }

  lemma NothingBelow(t: Tree, n: nat)
    ensures KeysBelow(t, n, 0) == {} && ChildrenBelow(t, n, 0) == {}
  {
  }

  lemma RefsCountedStep(v: Vol, t: Tree, n: nat, k: nat)
    requires FsOk(v, t) && k < |v.inodes| && Shape(v) && Listed(v, UsedTo(v, k + 1))
    ensures RefsIn(v, UsedTo(v, k + 1), n) == |KeysBelow(t, n, k + 1)| + One(n in t.parents && n < k + 1) + |ChildrenBelow(t, n, k + 1)|
    decreases k + 1, 0
  {
    hide FsOk, Shape, KeysAt, KeysBelow, ChildrenBelow, DirEntries, CountIno, Used, TreeOk, Mirrors, LinksMatch, Keys, Refs;
    FsParts(v, t);
    UsedInTable(v, k);
    RefsCounted(v, t, n, k);
    BelowStep(t, n, k);
    Record(v, t, k);
    CheckedKinds(v, t, k);
    RefsStep(v, k, n);
    if k in t.parents {
      DirCounted(v, t, k, n);
    } else {
      NotADirectory(t, n, k);
    }
  }

  lemma RefsStep(v: Vol, k: nat, n: nat)
    requires Shape(v) && k < |v.inodes| && Listed(v, UsedTo(v, k)) && Listed(v, UsedTo(v, k + 1))
    ensures RefsIn(v, UsedTo(v, k + 1), n) ==
              RefsIn(v, UsedTo(v, k), n) + if Checked(v, k) && v.inodes[k].kind == Directory then CountIno(DirEntries(v, k), n) else 0
  {
    hide Shape, Checked, DirEntries, CountIno;
    var us := UsedTo(v, k);
    if Checked(v, k) {
      assert UsedTo(v, k + 1)[..|us|] == us;
    } else {
      assert UsedTo(v, k + 1) == us;
    }
  }

  lemma CheckedKinds(v: Vol, t: Tree, n: nat)
    requires FsOk(v, t) && Shape(v) && n < |v.inodes|
    ensures Checked(v, n) <==> n in t.kinds
  {
    hide Sound, CountsOk, DirsMatch, BytesMatch, LinksMatch, TreeOk, Used, Shape;
  }

  lemma DirCounted(v: Vol, t: Tree, d: nat, n: nat)
    requires FsOk(v, t) && d in t.parents
    ensures 0 < v.g.bsize && d < |v.inodes| && CountIno(DirEntries(v, d), n) == |KeysAt(t, n, d)| + One(d == n) + One(t.parents[d] == n)
  {
    hide FsOk, Mirrors, TreeOk, LinksMatch, KeysAt, CountIno, IsDir, Listing, Lists, Sound, Readable, Entries, Contents, ValidGeometry;
    FsParts(v, t);
    DirAt(v, t, d);
    DirInTable(v, d);
    MirrorFacts(v, t);
    ListingReads(v, t.kinds.Keys, d);
    DirRefs(Listing(v, d), t, d, n);
  }

  /** The checker's count is the tree's. */
  lemma RefsAgree(v: Vol, t: Tree, n: nat)
    requires FsOk(v, t) && Shape(v) && Listed(v, UsedTo(v, |v.inodes|)) && n in t.kinds
    ensures RefsIn(v, UsedTo(v, |v.inodes|), n) == Refs(t, n)
  {
    hide FsOk, Shape, UsedTo, RefsIn, LinksMatch, Mirrors;
    RefsCounted(v, t, n, |v.inodes|);
    FsParts(v, t);
    Record(v, t, n);
    AllBelow(v, t, n);
  }

  lemma AllBelow(v: Vol, t: Tree, n: nat)
    requires TreeOk(t) && Mirrors(v, t)
    ensures KeysBelow(t, n, |v.inodes|) == Keys(t, n) && ChildrenBelow(t, n, |v.inodes|) == Children(t, n)
  {
    hide Mirrors, DirsOk, NamesOk, BytesOk, KeysBelow, ChildrenBelow, Keys, Children;
    forall d | d in t.parents ensures d < |v.inodes| { DirBound(v, t, d); }
    TreeBelow(t, n, |v.inodes|);
  }

  lemma DirBound(v: Vol, t: Tree, d: nat)
    requires Mirrors(v, t) && d in t.parents
    ensures d < |v.inodes|
  {
    hide Mirrors, IsDir, Lists, Sound;
    DirAt(v, t, d);
    DirInTable(v, d);
  }

  lemma TreeBelow(t: Tree, n: nat, k: nat)
    requires LinksOk(t) && forall d | d in t.parents :: d < k
    ensures KeysBelow(t, n, k) == Keys(t, n) && ChildrenBelow(t, n, k) == Children(t, n)
  {
  }

  // --- the whole predicate ---------------------------------------------------

  /** The checker reads totals as signed numbers: below 2^31 they read as themselves. */
  ghost predicate SmallTotals(v: Vol) {
    var c := v.totals;
    c.ndir < I31 && c.nbfree < I31 && c.nifree < I31 && c.nffree < I31
  }

  lemma TotalsClean(v: Vol)
    requires BlocksOk(v) && CountsOk(v)
    ensures TotalsFine(v) <==> SmallTotals(v)
  {
    hide Total, Shape, GroupsOk, OwnOk, GroupCounts;
  }

  lemma LiveInode(v: Vol, t: Tree, n: nat)
    requires FsOk(v, t) && n in t.kinds
    ensures n < |v.inodes| && ValidGeometry(v.g) && 0 < v.g.bsize && 0 < v.g.fsize && InodeOk(v, n) && Readable(v.g, v.img, v.inodes[n])
  {
    hide FsOk, Mirrors, LinksMatch, TreeOk, Sound, InodeOk, Readable;
    FsParts(v, t);
    MirrorFacts(v, t);
    SoundInode(v, t.kinds.Keys, n);
  }

  lemma FsWalkable(v: Vol, t: Tree)
    requires FsOk(v, t)
    ensures Walkable(v, {})
  {
    hide FsOk, Mirrors, LinksMatch, TreeOk, Shape, Checked, Readable, InodeOk, PtrBlocks, Listable;
    FsShape(v, t);
    forall n: nat | n < |v.inodes| && Checked(v, n)
      ensures Inside(v.g, v.img, PtrBlocks(v.g, v.img, v.inodes[n])) && Listable(v.g, v.img, v.inodes[n])
    {
      CheckedKinds(v, t, n);
      LiveInode(v, t, n);
      ReadableShape(v.g, v.img, v.inodes[n]);
      ReadableListable(v.g, v.img, v.inodes[n]);
    }
  }

  lemma FsShape(v: Vol, t: Tree)
    requires FsOk(v, t)
    ensures Shape(v) && BlocksOk(v) && CountsOk(v) && FilesOk(v, t.kinds.Keys) && 0 < v.g.bsize && 0 < v.g.fsize
  {
    hide BlocksOk, InodeOk, Attached, CountsOk, TableOk, DirsMatch, BytesMatch, LinksMatch, TreeOk;
    CountsShape(v);
  }

  lemma ExtentsClean(v: Vol, t: Tree)
    requires FsOk(v, t) && Shape(v) && Listed(v, UsedTo(v, |v.inodes|))
    ensures ClaimsOk(v.g.dsize, Extents(v, UsedTo(v, |v.inodes|))) && MapsFine(v, Extents(v, UsedTo(v, |v.inodes|)))
  {
    hide FsOk, Shape, BlocksOk, CountsOk, FilesOk, Checked, Extents, UsedTo, Backed, MapsFine, ClaimsOk, Listed;
    FsShape(v, t);
    var k := |v.inodes|;
    forall n: nat | n < k ensures Checked(v, n) <==> n in t.kinds { CheckedKinds(v, t, n); }
    AllBacked(v, t.kinds.Keys, k);
    var xs := Extents(v, UsedTo(v, k));
    BackedClaims(v, xs, k);
    forall b | b in v.own ensures exists i :: 0 <= i < |xs| && xs[i].start == b {
      ClaimReached(v, t.kinds.Keys, b);
      ClaimListed(v, t.kinds.Keys, k, b);
    }
    MapsClean(v, xs);
  }

  lemma ClaimReached(v: Vol, live: set<nat>, b: nat)
    requires FilesOk(v, live) && b in v.own
    ensures v.own[b].ino in live && v.own[b].ino < |v.inodes|
  {
    hide InodeOk, Footprint;
  }

  lemma DirClean(v: Vol, t: Tree, us: seq<nat>, n: nat)
    requires FsOk(v, t) && n in t.parents && forall m | m in t.kinds :: m in us
    ensures 0 < v.g.bsize && n < |v.inodes| && DirFine(v, us, n)
  {
    hide FsOk, Mirrors, TreeOk, LinksMatch, IsDir, Listing, Sound, Readable, Entries, Contents, ValidGeometry;
    FsParts(v, t);
    DirAt(v, t, n);
    DirInTable(v, n);
    LiveInode(v, t, n);
    ListingReads(v, t.kinds.Keys, n);
    ListingFine(Listing(v, n), t, us, n);
  }

  lemma ListingFine(es: seq<Entry>, t: Tree, us: seq<nat>, n: nat)
    requires TreeOk(t) && n in t.parents && Lists(es, t, n) && forall m | m in t.kinds :: m in us
    ensures (forall i | 0 <= i < |es| :: EntryFine(us, n, es[i])) && Has(es, DOT) && Has(es, DOTDOT)
  {
    hide DirsOk, NamesOk, BytesOk, Distinct;
    forall i | 0 <= i < |es| ensures EntryFine(us, n, es[i]) { assert es[i] in es; }
    assert Entry(DOT, n) in es;
    assert Entry(DOTDOT, t.parents[n]) in es;
  }

  lemma Referenced(t: Tree, n: nat)
    requires TreeOk(t) && n in t.kinds
    ensures 0 < Refs(t, n)
  {
    hide LinksOk, BytesOk;
    if n !in t.parents { assert Keys(t, n) != {}; }
  }

  /** A file system that satisfies the invariant is clean: the checker says nothing, unless a total outgrew 31 bits. */
  lemma FsConsistent(v: Vol, t: Tree)
    requires FsOk(v, t)
    ensures Walkable(v, {}) && (Consistent(v) <==> SmallTotals(v))
  {
    hide FsOk, Shape, BlocksOk, CountsOk, FilesOk, Walkable, UsedTo, Extents, MapsFine, ClaimsOk, InodeSound, DirFine, LinksFine, TotalsFine, SmallTotals, InodeOk, Readable, ValidGeometry;
    FsWalkable(v, t);
    FsShape(v, t);
    UsedInTable(v, |v.inodes|);
    var us := UsedTo(v, |v.inodes|);
    forall n: nat ensures n in us <==> n in t.kinds { InUse(v, t, n); }
    ExtentsClean(v, t);
    TotalsClean(v);
    forall i | 0 <= i < |us| ensures InodeSound(v, us[i]) && LinksFine(v, us, us[i]) {
      assert us[i] in us;
      LiveInode(v, t, us[i]);
      InodeClean(v, us[i]);
      LinksClean(v, t, us[i]);
    }
    forall i | 0 <= i < |us| && v.inodes[us[i]].kind == Directory ensures DirFine(v, us, us[i]) {
      assert us[i] in us;
      Record(v, t, us[i]);
      DirClean(v, t, us, us[i]);
    }
  }

  lemma InUse(v: Vol, t: Tree, n: nat)
    requires FsOk(v, t) && Shape(v) && 0 < v.g.fsize && 0 < v.g.bsize
    ensures n in UsedTo(v, |v.inodes|) <==> n in t.kinds
  {
    hide FsOk, Shape, Checked, UsedTo;
    UsedInTable(v, |v.inodes|);
    if n in t.kinds { Record(v, t, n); }
    if n < |v.inodes| { CheckedKinds(v, t, n); }
  }

  lemma LinksClean(v: Vol, t: Tree, n: nat)
    requires FsOk(v, t) && Shape(v) && Listed(v, UsedTo(v, |v.inodes|)) && n in t.kinds
    ensures n < |v.inodes| && LinksFine(v, UsedTo(v, |v.inodes|), n)
  {
    hide FsOk, Shape, UsedTo, RefsIn, Refs, TreeOk, Mirrors, LinksMatch;
    RefsAgree(v, t, n);
    Record(v, t, n);
    FsParts(v, t);
    Referenced(t, n);
  }

  /** On a slice of fewer than 2^31 fragments and inodes the totals stay small. */
  lemma TotalsStaySmall(v: Vol, t: Tree)
    requires FsOk(v, t) && v.g.dsize < I31 && |v.inodes| < I31
    ensures SmallTotals(v)
  {
    hide FsOk, Shape, FilesOk, CgOk, Total, GroupCounts, ValidGeometry;
    FsShape(v, t);
    CountsBound(v);
    BlockTotal(v);
  }

  lemma CountsBound(v: Vol)
    requires CountsOk(v)
    ensures v.totals.ndir + v.totals.nifree <= |v.inodes| && v.totals.nffree < I31
  {
    hide Total, GroupCounts, ValidGeometry;
    TotalsBound(v, v.g.ncg);
    assert v.cgs[..v.g.ncg] == v.cgs;
  }

  lemma BlockTotal(v: Vol)
    requires BlocksOk(v)
    ensures v.totals.nbfree <= v.g.dsize
  {
    hide Total, CgOk, ValidGeometry;
    TotalBound(v, v.g.ncg);
    assert v.cgs[..v.g.ncg] == v.cgs;
  }

  /** After any run of successful operations the checker has nothing to report, unless an inode in use is stored
      past the end of the image. */
  method RunThenCheck(vol: Volume, lost: set<nat>, ops: seq<Op>, ghost t: Tree)
    returns (done: nat, problems: seq<Problem>, ghost ts: seq<Tree>)
    requires FsOk(vol.View(), t) && vol.g.dsize < I31 && |vol.inodes| < I31
    modifies vol, vol.image
    ensures done <= |ops| && Trace(ts, ops[..done]) && ts[0] == t
    ensures done == |ops| ==> Trace(ts, ops) && FsOk(vol.View(), ts[|ops|]) && (problems == [] <==> ts[|ops|].kinds.Keys !! lost)
    ensures done < |ops| ==> Obstacle(vol.View(), ts[done], ops[done])
  {
    hide Obstacle, FsOk, Consistent, Walkable, SmallTotals, Trace, NoneLost;
    ghost var v := vol.View();
    done, ts := RunAll(vol, ops, t);
    problems := [];
    if done == |ops| {
      TraceLength(ts, ops);
      SameSize(v, t, vol.View(), ts[|ops|]);
      FsConsistent(vol.View(), ts[|ops|]);
      TotalsStaySmall(vol.View(), ts[|ops|]);
      LostInodes(vol.View(), ts[|ops|], lost);
      problems := CheckFilesystem(vol, lost);
    }
  }

  lemma LostInodes(v: Vol, t: Tree, lost: set<nat>)
    requires FsOk(v, t) && Walkable(v, {})
    ensures Shape(v) && Walkable(v, lost) && (NoneLost(v, lost, |v.inodes|) <==> t.kinds.Keys !! lost)
  {
    hide FsOk, Shape, Checked, Listable;
    forall n: nat | n < |v.inodes| || n in t.kinds ensures n < |v.inodes| && (Checked(v, n) <==> n in t.kinds) {
      Record(v, t, n);
      CheckedKinds(v, t, n);
    }
  }

  lemma TraceLength(ts: seq<Tree>, ops: seq<Op>)
    requires Trace(ts, ops)
    ensures |ts| == |ops| + 1
  {
    hide Step;
  }

  lemma SameSize(v: Vol, t: Tree, w: Vol, u: Tree)
    requires FsOk(v, t) && FsOk(w, u) && v.g == w.g
    ensures |v.inodes| == |w.inodes|
  {
    hide FsOk, BlocksOk, CountsOk, FilesOk, ValidGeometry;
    FsShape(v, t);
    FsShape(w, u);
  }
}
