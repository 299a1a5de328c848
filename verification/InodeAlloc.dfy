/** Inode allocation: the used map, the search for a free inode, and the counts kept along the way. */
module InodeAlloc {
  import opened Arith
  import opened Geometry
  import opened VolumeState
  import opened Alloc
  import opened Pointers
  import opened Inodes
  import opened Write

  /** The used bit of inode `n`. */
  ghost predicate Used(v: Vol, n: nat)
    requires Shape(v)
  {
    n < |v.inodes| && Bit(v, Quot(n, v.g.ipg), Rem(n, v.g.ipg))
  }

  ghost predicate Bit(v: Vol, cg: nat, l: nat)
    requires Shape(v)
  {
    cg < v.g.ncg && l < v.g.ipg && v.cgs[cg].iused[l]
  }

  /** Directory inodes among the first `k` of the group whose inodes start at `base`. */
  ghost function DirCount(iused: seq<bool>, inodes: seq<Dinode>, base: nat, k: nat): nat
    requires k <= |iused| && base + |iused| <= |inodes|
  {
    if k == 0 then 0 else
      DirCount(iused, inodes, base, k - 1) + One(iused[k - 1] && base + k - 1 >= ROOT && inodes[base + k - 1].kind == Directory)
  }

  lemma GroupRange(g: Geometry, cg: nat)
    requires cg < g.ncg
    ensures Mul(cg, g.ipg) + g.ipg <= Mul(g.ncg, g.ipg)
  {
    MulLess(cg, g.ncg, g.ipg);
  }

  /** One group's inode counts are exact. */
  ghost predicate GroupCounts(v: Vol, cg: nat)
    requires Shape(v) && cg < v.g.ncg
  {
    GroupRange(v.g, cg);
    && v.cgs[cg].cs.nifree == Clear(v.cgs[cg].iused, v.g.ipg)
    && v.cgs[cg].cs.ndir == DirCount(v.cgs[cg].iused, v.inodes, Mul(cg, v.g.ipg), v.g.ipg)
  }

  /** Inode and directory counts are exact, and the superblock totals are the group sums. */
  ghost predicate CountsOk(v: Vol) {
    && Shape(v)
    && (forall cg | 0 <= cg < v.g.ncg :: GroupCounts(v, cg))
    && v.totals.ndir == Total(v.cgs).ndir && v.totals.nifree == Total(v.cgs).nifree && v.totals.nffree == Total(v.cgs).nffree < I31
    && v.cgs[0].iused[0] && v.cgs[0].iused[1]
  }

  // --- counting laws ---------------------------------------------------------

  lemma {:induction false} ClearAfter(bits: seq<bool>, l: nat, val: bool, n: nat)
    requires l < |bits| && n <= |bits|
    ensures n <= l ==> Clear(bits[l := val], n) == Clear(bits, n)
    ensures l < n ==> Clear(bits[l := val], n) + One(val) == Clear(bits, n) + One(bits[l])
    decreases n
  {
    if n != 0 { ClearAfter(bits, l, val, n - 1); }
  }

  lemma {:induction false} ClearBound(bits: seq<bool>, n: nat)
    requires n <= |bits|
    ensures Clear(bits, n) <= n
    ensures Clear(bits, n) == 0 <==> forall i | 0 <= i < n :: bits[i]
    decreases n
  {
    if n != 0 { ClearBound(bits, n - 1); }
  }

  lemma {:induction false} DirsAfter(iused: seq<bool>, inodes: seq<Dinode>, base: nat, l: nat, val: bool, d: Dinode, k: nat)
    requires l < |iused| && k <= |iused| && base + |iused| <= |inodes|
    ensures k <= l ==> DirCount(iused[l := val], inodes[base + l := d], base, k) == DirCount(iused, inodes, base, k)
    ensures l < k ==>
              DirCount(iused[l := val], inodes[base + l := d], base, k) + One(iused[l] && base + l >= ROOT && inodes[base + l].kind == Directory)
                == DirCount(iused, inodes, base, k) + One(val && base + l >= ROOT && d.kind == Directory)
    decreases k
  {
    if k != 0 { DirsAfter(iused, inodes, base, l, val, d, k - 1); }
  }

  lemma {:induction false} DirsElsewhere(iused: seq<bool>, inodes: seq<Dinode>, base: nat, n: nat, d: Dinode, k: nat)
    requires k <= |iused| && base + |iused| <= |inodes| && n < |inodes| && !(base <= n < base + |iused|)
    ensures DirCount(iused, inodes[n := d], base, k) == DirCount(iused, inodes, base, k)
    decreases k
  {
    if k != 0 { DirsElsewhere(iused, inodes, base, n, d, k - 1); }
  }

  /** Directories and free inodes are disjoint. */
  lemma {:induction false} DirsBound(iused: seq<bool>, inodes: seq<Dinode>, base: nat, k: nat)
    requires k <= |iused| && base + |iused| <= |inodes|
    ensures DirCount(iused, inodes, base, k) + Clear(iused, k) <= k
    decreases k
  {
    if k != 0 { DirsBound(iused, inodes, base, k - 1); }
  }

  lemma {:induction false} TotalsBound(v: Vol, k: nat)
    requires Shape(v) && k <= |v.cgs| && forall cg | 0 <= cg < v.g.ncg :: GroupCounts(v, cg)
    ensures Total(v.cgs[..k]).nifree + Total(v.cgs[..k]).ndir <= Mul(k, v.g.ipg)
    decreases k
  {
    if k != 0 {
      TotalsBound(v, k - 1);
      assert v.cgs[..k][..k - 1] == v.cgs[..k - 1];
      assert GroupCounts(v, k - 1);
      GroupRange(v.g, k - 1);
      DirsBound(v.cgs[k - 1].iused, v.inodes, Mul(k - 1, v.g.ipg), v.g.ipg);
      MulSucc(k - 1, v.g.ipg);
    }
  }

  /** The inode counts never come near the 32-bit limit. */
  lemma InodeCountsFit(v: Vol, cg: nat)
    requires CountsOk(v) && cg < v.g.ncg
    ensures v.cgs[cg].cs.nifree + v.cgs[cg].cs.ndir <= v.g.ipg < U32
    ensures v.totals.nifree + v.totals.ndir < U32
    ensures v.cgs[cg].cs.nifree <= v.totals.nifree && v.cgs[cg].cs.ndir <= v.totals.ndir
  {
    hide Total;
    TotalsBound(v, v.g.ncg);
    assert v.cgs[..v.g.ncg] == v.cgs;
    assert GroupCounts(v, cg);
    GroupRange(v.g, cg);
    DirsBound(v.cgs[cg].iused, v.inodes, Mul(cg, v.g.ipg), v.g.ipg);
    TotalUpdate(v.cgs, cg, v.cgs[cg].(cs := Csum(0, 0, 0, 0)));
  }

  // --- changing one inode ----------------------------------------------------

  /** Inode `n` (slot `l` of group `cg`) becomes used or free with record `d`; counts follow. */
  ghost function Flip(v: Vol, cg: nat, l: nat, val: bool, d: Dinode, nifree: nat, ndir: nat, tifree: nat, tdir: nat, rotor: nat): Vol
    requires Shape(v) && cg < v.g.ncg && l < v.g.ipg
  {
    GroupRange(v.g, cg);
    var c := v.cgs[cg];
    v.(cgs := v.cgs[cg := c.(iused := c.iused[l := val], irotor := rotor, cs := c.cs.(nifree := nifree, ndir := ndir))],
       totals := v.totals.(nifree := tifree, ndir := tdir),
       inodes := v.inodes[Mul(cg, v.g.ipg) + l := d])
  }

  lemma FlipShape(v: Vol, cg: nat, l: nat, val: bool, d: Dinode, nifree: nat, ndir: nat, tifree: nat, tdir: nat, rotor: nat)
    requires BlocksOk(v) && cg < v.g.ncg && l < v.g.ipg
    ensures BlocksOk(Flip(v, cg, l, val, d, nifree, ndir, tifree, tdir, rotor))
  {
    hide Total;
    var w := Flip(v, cg, l, val, d, nifree, ndir, tifree, tdir, rotor);
    GroupRange(v.g, cg);
    TotalUpdate(v.cgs, cg, w.cgs[cg]);
    assert w.cgs == v.cgs[cg := w.cgs[cg]];
    forall i | 0 <= i < v.g.ncg ensures CgOk(w.g, w.own, i, w.cgs[i]) {
      assert CgOk(v.g, v.own, i, v.cgs[i]);
    }
    assert GroupsOk(w.g, w.own, w.cgs);
    assert Shape(w);
  }

  /** The flip with the counts it calls for. */
  ghost function Enlist(v: Vol, cg: nat, l: nat, d: Dinode, directory: bool): Vol
    requires Shape(v) && cg < v.g.ncg && l < v.g.ipg && 0 < v.cgs[cg].cs.nifree && 0 < v.totals.nifree
  {
    Flip(v, cg, l, true, d, v.cgs[cg].cs.nifree - 1, v.cgs[cg].cs.ndir + One(directory),
         v.totals.nifree - 1, v.totals.ndir + One(directory), l)
  }

  ghost function Discharge(v: Vol, cg: nat, l: nat, d: Dinode, directory: bool): Vol
    requires Shape(v) && cg < v.g.ncg && l < v.g.ipg
    requires directory ==> 0 < v.cgs[cg].cs.ndir && 0 < v.totals.ndir
  {
    Flip(v, cg, l, false, d, v.cgs[cg].cs.nifree + 1, v.cgs[cg].cs.ndir - One(directory),
         v.totals.nifree + 1, v.totals.ndir - One(directory), v.cgs[cg].irotor)
  }

  /** A flip whose counts match keeps every count exact. */
  lemma FlipCounts(v: Vol, w: Vol, cg: nat, l: nat, val: bool, d: Dinode)
    requires CountsOk(v) && cg < v.g.ncg && l < v.g.ipg && Mul(cg, v.g.ipg) + l >= ROOT
    requires |w.cgs| == |v.cgs| && w == Flip(v, cg, l, val, d, w.cgs[cg].cs.nifree, w.cgs[cg].cs.ndir, w.totals.nifree, w.totals.ndir, w.cgs[cg].irotor)
    requires Mul(cg, v.g.ipg) + l < |v.inodes|
    requires var c, n := v.cgs[cg], Mul(cg, v.g.ipg) + l;
      && w.cgs[cg].cs.nifree + One(val) == c.cs.nifree + One(c.iused[l])
      && w.cgs[cg].cs.ndir + One(c.iused[l] && v.inodes[n].kind == Directory) == c.cs.ndir + One(val && d.kind == Directory)
      && w.totals.nifree - v.totals.nifree == w.cgs[cg].cs.nifree - c.cs.nifree
      && w.totals.ndir - v.totals.ndir == w.cgs[cg].cs.ndir - c.cs.ndir
    ensures CountsOk(w)
  {
    hide Total, DirCount, Clear, ValidGeometry, Mul;
    GroupRange(v.g, cg);
    var base := Mul(cg, v.g.ipg);
    assert GroupCounts(v, cg);
    ClearAfter(v.cgs[cg].iused, l, val, v.g.ipg);
    DirsAfter(v.cgs[cg].iused, v.inodes, base, l, val, d, v.g.ipg);
    TotalUpdate(v.cgs, cg, w.cgs[cg]);
    assert w.cgs == v.cgs[cg := w.cgs[cg]];
    ReservedKept(v, w, cg, l, val);
    forall i | 0 <= i < v.g.ncg ensures GroupCounts(w, i) {
      if i != cg {
        assert GroupCounts(v, i);
        OtherGroupCounts(v, w, cg, l, d, i);
      }
    }
  }

  /** The two reserved bits are not the slot that changed. */
  lemma ReservedKept(v: Vol, w: Vol, cg: nat, l: nat, val: bool)
    requires CountsOk(v) && |w.cgs| == |v.cgs| && cg < v.g.ncg && l < v.g.ipg && Mul(cg, v.g.ipg) + l >= ROOT
    requires w.cgs[cg].iused == v.cgs[cg].iused[l := val] && forall i | 0 <= i < v.g.ncg && i != cg :: w.cgs[i] == v.cgs[i]
    ensures 0 < v.g.ncg && 2 <= |w.cgs[0].iused| && w.cgs[0].iused[0] && w.cgs[0].iused[1]
  {
    hide Total, DirCount, Clear, GroupCounts;
    MulZero(v.g.ipg);
  }

  lemma OtherGroupCounts(v: Vol, w: Vol, cg: nat, l: nat, d: Dinode, i: nat)
    requires Shape(v) && Shape(w) && w.g == v.g && cg < v.g.ncg && i < v.g.ncg && i != cg && l < v.g.ipg && GroupCounts(v, i)
    requires w.cgs[i] == v.cgs[i] && Mul(cg, v.g.ipg) + l < |v.inodes| && w.inodes == v.inodes[Mul(cg, v.g.ipg) + l := d]
    ensures GroupCounts(w, i)
  {
    hide DirCount, Clear;
    GroupRange(v.g, i);
    if i < cg { MulLess(i, cg, v.g.ipg); } else { MulLess(cg, i, v.g.ipg); }
    DirsElsewhere(v.cgs[i].iused, v.inodes, Mul(i, v.g.ipg), Mul(cg, v.g.ipg) + l, d, v.g.ipg);
  }

  // --- the search ------------------------------------------------------------

  /** Every slot from the rotor up to `l`, cyclically, is in use. */
  ghost predicate FirstClear(c: Cg, ipg: nat, l: nat)
    requires l < ipg == |c.iused|
  {
    Recompose(c.irotor, ipg);
    var start := Rem(c.irotor, ipg);
    forall j: nat | j < ipg && Scanned(start, Steps(start, ipg, l), ipg, j) :: c.iused[j]
  }

  /** The groups before `cg`, from the preferred inode's on, are full; there it is the preferred slot itself when that is
      free, else the first free one from the rotor. */
  ghost predicate FirstChoice(v: Vol, preferred: nat, cg: nat, l: nat)
    requires Shape(v) && preferred < |v.inodes| && cg < v.g.ncg && l < v.g.ipg
  {
    GroupOf(v.g, preferred);
    var start, want := Quot(preferred, v.g.ipg), Rem(preferred, v.g.ipg);
    && (forall i: nat, j: nat | i < v.g.ncg && j < v.g.ipg && Scanned(start, Steps(start, v.g.ncg, cg), v.g.ncg, i) :: Bit(v, i, j))
    && if cg == start && !Bit(v, start, want) then l == want else FirstClear(v.cgs[cg], v.g.ipg, l)
  }

  /** First clear bit at or after the rotor, cyclically. */
  method FindFreeInode(c: Cg, ipg: nat) returns (r: Result<nat>)
    requires 0 < ipg == |c.iused|
    ensures r.Ok? ==> r.value < ipg && !c.iused[r.value] && FirstClear(c, ipg, r.value)
    ensures r.Err? ==> forall l | 0 <= l < ipg :: c.iused[l]
  {
    var start := Rem(c.irotor, ipg);
    Recompose(c.irotor, ipg);
    for offset := 0 to ipg
      invariant forall l: nat | l < ipg && Scanned(start, offset, ipg, l) :: c.iused[l]
    {
      var candidate := Rem(start + offset, ipg);
      WrapIs(start + offset, ipg);
      if !c.iused[candidate] {
        return Ok(candidate);
      }
    }
    assert forall l: nat | l < ipg :: Scanned(start, ipg, ipg, l);
    return Err;
  }

  /** `allocate_inode`: the preferred slot, else the rotor search, group by group. */
  method AllocateInode(vol: Volume, preferred: nat, directory: bool) returns (r: Result<nat>, ghost cg: nat, ghost l: nat)
    requires CountsOk(vol.View()) && preferred < |vol.inodes|
    modifies vol
    ensures r.Ok? ==> cg < vol.g.ncg && l < vol.g.ipg && !Bit(old(vol.View()), cg, l) && r.value == Mul(cg, vol.g.ipg) + l < old(|vol.inodes|)
    ensures r.Ok? ==> Shape(old(vol.View())) && FirstChoice(old(vol.View()), preferred, cg, l)
    ensures r.Ok? ==> |vol.cgs| == |old(vol.cgs)| && vol.cgs[cg].irotor == l
    ensures r.Ok? ==> 0 < old(vol.cgs)[cg].cs.nifree && 0 < old(vol.totals.nifree)
    ensures r.Ok? ==> vol.View() == Enlist(old(vol.View()), cg, l, old(vol.inodes[r.value]), directory)
    ensures r.Err? ==> vol.View() == old(vol.View()) && forall n: nat | n < |vol.inodes| :: Used(vol.View(), n)
  {
    hide CountsOk, GroupCounts, Total, Enlist, FirstClear, FirstChoice;
    CountsShape(vol.View());
    cg, l := 0, 0;
    GroupOf(vol.g, preferred);
    var start, want := Quot(preferred, vol.g.ipg), Rem(preferred, vol.g.ipg);
    for attempt := 0 to vol.g.ncg
      invariant vol.View() == old(vol.View())
      invariant forall i: nat, j: nat | i < vol.g.ncg && j < vol.g.ipg && Scanned(start, attempt, vol.g.ncg, i) :: Bit(vol.View(), i, j)
    {
      var at := Rem(start + attempt, vol.g.ncg);
      WrapIs(start + attempt, vol.g.ncg);
      var c := vol.cgs[at];
      NoneFree(vol.View(), at);
      if c.cs.nifree == 0 {
        continue;
      }
      var local: Result<nat> := Err;
      if attempt == 0 && !c.iused[want] {
        local := Ok(want);
      }
      if local.Err? {
        local := FindFreeInode(c, vol.g.ipg);
      }
      if local.Ok? {
        cg, l := at, local.value;
        InodeCountsFit(vol.View(), at);
        Chosen(vol.View(), preferred, attempt, local.value);
        var n := EnlistAt(vol, at, local.value, directory);
        return Ok(n), cg, l;
      }
    }
    AllUsed(vol.View(), start);
    return Err, 0, 0;
  }

  lemma Chosen(v: Vol, preferred: nat, attempt: nat, l: nat)
    requires Shape(v) && preferred < |v.inodes| && attempt < v.g.ncg && l < v.g.ipg && Quot(preferred, v.g.ipg) < v.g.ncg
    requires var start, want := Quot(preferred, v.g.ipg), Rem(preferred, v.g.ipg);
      var at := Rem(start + attempt, v.g.ncg);
      && at == (if start + attempt < v.g.ncg then start + attempt else start + attempt - v.g.ncg)
      && (forall i: nat, j: nat | i < v.g.ncg && j < v.g.ipg && Scanned(start, attempt, v.g.ncg, i) :: Bit(v, i, j))
      && want < v.g.ipg && if attempt == 0 && !v.cgs[at].iused[want] then l == want else FirstClear(v.cgs[at], v.g.ipg, l)
    ensures FirstChoice(v, preferred, Rem(Quot(preferred, v.g.ipg) + attempt, v.g.ncg), l)
  {
    hide FirstClear, Rem, Quot, Mul, ValidGeometry;
  }

  lemma CountsShape(v: Vol)
    requires CountsOk(v)
    ensures Shape(v)
  {
  }

  lemma NoneFree(v: Vol, cg: nat)
    requires CountsOk(v) && cg < v.g.ncg
    ensures v.cgs[cg].cs.nifree == 0 ==> forall j: nat | j < v.g.ipg :: Bit(v, cg, j)
    ensures forall j: nat | j < v.g.ipg && v.cgs[cg].iused[j] :: Bit(v, cg, j)
  {
    assert GroupCounts(v, cg);
    ClearBound(v.cgs[cg].iused, v.g.ipg);
  }

  lemma AllUsed(v: Vol, start: nat)
    requires Shape(v) && start < v.g.ncg
    requires forall i: nat, j: nat | i < v.g.ncg && j < v.g.ipg && Scanned(start, v.g.ncg, v.g.ncg, i) :: Bit(v, i, j)
    ensures forall n: nat | n < |v.inodes| :: Used(v, n)
  {
    forall n: nat | n < |v.inodes| ensures Used(v, n) {
      GroupOf(v.g, n);
      assert Scanned(start, v.g.ncg, v.g.ncg, Quot(n, v.g.ipg));
    }
  }

  /** Sets the bit, moves the rotor and adjusts the counts. */
  method EnlistAt(vol: Volume, cg: nat, l: nat, directory: bool) returns (n: nat)
    requires Shape(vol.View()) && cg < vol.g.ncg && l < vol.g.ipg && 0 < vol.cgs[cg].cs.nifree < U32 && 0 < vol.totals.nifree < U32
    requires vol.cgs[cg].cs.ndir + 1 < U32 && vol.totals.ndir + 1 < U32
    modifies vol
    ensures n == Mul(cg, vol.g.ipg) + l < old(|vol.inodes|)
    ensures |vol.cgs| == |old(vol.cgs)| && vol.cgs[cg].irotor == l
    ensures 0 < old(vol.totals.nifree) && vol.View() == Enlist(old(vol.View()), cg, l, old(vol.inodes)[n], directory)
  {
    hide ValidGeometry, Mul;
    GroupRange(vol.g, cg);
    var c := vol.cgs[cg];
    var cs := c.cs.(nifree := Adjust(c.cs.nifree, -1));
    if directory {
      cs := cs.(ndir := Adjust(cs.ndir, 1));
    }
    vol.cgs := vol.cgs[cg := c.(iused := c.iused[l := true], irotor := l, cs := cs)];
    vol.totals := vol.totals.(nifree := Adjust(vol.totals.nifree, -1));
    if directory {
      vol.totals := vol.totals.(ndir := Adjust(vol.totals.ndir, 1));
    }
    n := Mul(cg, vol.g.ipg) + l;
    assert vol.inodes == vol.inodes[n := vol.inodes[n]];
  }

  /** `free_inode`. */
  method FreeInode(vol: Volume, n: nat, directory: bool) returns (r: Result<()>)
    requires Shape(vol.View()) && n < |vol.inodes| && Quot(n, vol.g.ipg) < vol.g.ncg
    requires vol.totals.nifree + 1 < U32 && vol.cgs[Quot(n, vol.g.ipg)].cs.nifree + 1 < U32
    requires directory ==> 0 < vol.cgs[Quot(n, vol.g.ipg)].cs.ndir < U32 && 0 < vol.totals.ndir < U32
    modifies vol
    ensures Quot(n, vol.g.ipg) < vol.g.ncg && Rem(n, vol.g.ipg) < vol.g.ipg
    ensures r.Ok? <==> Used(old(vol.View()), n)
    ensures r.Err? ==> vol.View() == old(vol.View())
    ensures r.Ok? ==> vol.View() == Discharge(old(vol.View()), Quot(n, vol.g.ipg), Rem(n, vol.g.ipg), old(vol.inodes)[n], directory)
  {
    GroupOf(vol.g, n);
    var cg, l := Quot(n, vol.g.ipg), Rem(n, vol.g.ipg);
    var c := vol.cgs[cg];
    if !c.iused[l] {
      return Err;
    }
    var cs := c.cs.(nifree := Adjust(c.cs.nifree, 1));
    if directory {
      cs := cs.(ndir := Adjust(cs.ndir, -1));
    }
    vol.cgs := vol.cgs[cg := c.(iused := c.iused[l := false], cs := cs)];
    vol.totals := vol.totals.(nifree := Adjust(vol.totals.nifree, 1));
    if directory {
      vol.totals := vol.totals.(ndir := Adjust(vol.totals.ndir, -1));
    }
    assert vol.inodes == vol.inodes[n := vol.inodes[n]];
    return Ok(());
  }
}
