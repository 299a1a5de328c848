/**
 Block, fragment and inode allocation. A `Volume` is the mutable slice; each
 method's effect is stated on the value `View()` holds before and after it.
 */
module Alloc {
  import opened Arith
  import opened Geometry
  import opened VolumeState
  import opened Codec

  /** `current + delta` stored back into an unsigned 32-bit field. */
  function Adjust(current: nat, delta: int): nat { (current + delta) % U32 }

  /** A cyclic scan wraps at most once. */
  lemma WrapIs(x: nat, n: nat)
    requires x < 2 * n
    ensures Rem(x, n) == if x < n then x else x - n
  {
  }

  /** Slot `k` is among the first `steps` of a cyclic scan that starts at `start`. */
  ghost predicate Scanned(start: nat, steps: nat, n: nat, k: nat) {
    if start <= k then k - start < steps else k + n - start < steps
  }

  /** How many steps that scan takes to reach `k`. */
  function Steps(start: nat, n: nat, k: nat): nat
    requires start < n && k < n
  {
    if start <= k then k - start else k + n - start
  }

  /** The scan of the groups, from `start` on and round, finds its first wholly free block at `loc` of group `cg`. */
  ghost predicate FirstFree(v: Vol, start: nat, cg: nat, loc: nat)
    requires Shape(v) && start < v.g.ncg
  {
    && GoodLoc(v.g, cg, loc)
    && (forall i: nat, l: nat | GoodLoc(v.g, i, l) && Scanned(start, Steps(start, v.g.ncg, cg), v.g.ncg, i) ::
          !AllFree(v.cgs[i].free, l, v.g.frag))
    && (forall l: nat | GoodLoc(v.g, cg, l) && l < loc :: !AllFree(v.cgs[cg].free, l, v.g.frag))
  }

  /** The first `n` bytes of block `b` are zero. */
  ghost predicate Blanked(v: Vol, b: nat, n: nat) { n <= |Region(v.g, v.img, b)| && Region(v.g, v.img, b)[..n] == Zeros(n) }

  lemma GroupOf(g: Geometry, ino: nat)
    requires ValidGeometry(g) && ino < Mul(g.ncg, g.ipg)
    ensures Quot(ino, g.ipg) < g.ncg && Rem(ino, g.ipg) < g.ipg
    ensures ino == Mul(Quot(ino, g.ipg), g.ipg) + Rem(ino, g.ipg)
  {
    Recompose(ino, g.ipg);
    if g.ncg <= Quot(ino, g.ipg) {
      MulAdd(g.ncg, Quot(ino, g.ipg) - g.ncg, g.ipg);
    }
  }

  /** One more claim, on a block nobody owned; only that block's bytes may differ. */
  ghost predicate Allocated(v: Vol, w: Vol, b: nat, k: Claim) {
    && ValidGeometry(v.g) && InodeSideSame(v, w)
    && GoodBlock(v.g, b) && b !in v.own && w.own == v.own[b := k]
    && SameExcept(v.g, v.img, w.img, {b})
    && |Region(v.g, w.img, b)| == v.g.bsize
    && Mul(k.frags, v.g.fsize) <= v.g.bsize
    && Region(v.g, w.img, b)[..Mul(k.frags, v.g.fsize)] == Zeros(Mul(k.frags, v.g.fsize))
  }

  /** `set_frag_state` over a run of fragments. */
  method SetRun(bits: seq<bool>, lo: nat, n: nat, val: bool) returns (r: seq<bool>)
    requires lo + n <= |bits|
    ensures r == Mark(bits, lo, n, val)
  {
    r := bits;
    for o := 0 to n
      invariant r == Mark(bits, lo, o, val)
    {
      r := r[lo + o := val];
    }
  }

  /** `is_frag_free` over a run of fragments. */
  method RunIsFree(bits: seq<bool>, lo: nat, n: nat) returns (r: bool)
    requires lo + n <= |bits|
    ensures r == AllFree(bits, lo, n)
  {
    for o := 0 to n
      invariant forall i | lo <= i < lo + o :: bits[i]
    {
      if !bits[lo + o] {
        return false;
      }
    }
    return true;
  }

  lemma TakeReady(v: Vol, cg: nat, loc: nat, k: Claim)
    requires BlocksOk(v) && GoodLoc(v.g, cg, loc) && AllFree(v.cgs[cg].free, loc, v.g.frag) && 1 <= k.frags <= v.g.frag
    ensures CgBase(v.g, cg) + loc !in v.own && GoodBlock(v.g, CgBase(v.g, cg) + loc)
    ensures 0 < v.cgs[cg].cs.nbfree < U32 && 0 < v.totals.nbfree < U32
    ensures BlocksOk(Take(v, cg, loc, k))
  {
    hide CgOk;
    assert CgOk(v.g, v.own, cg, v.cgs[cg]);
    FreeIffUnowned(v.g, v.own, cg, v.cgs[cg], loc);
    TakeKeeps(v, cg, loc, k);
    CountsFit(v);
    GoodAt(v.g, cg, loc);
  }

  lemma OwnedBlock(v: Vol, b: nat)
    requires BlocksOk(v) && b in v.own
    ensures GoodLoc(v.g, Quot(b, v.g.fpg), Rem(b, v.g.fpg)) && CgBase(v.g, Quot(b, v.g.fpg)) + Rem(b, v.g.fpg) == b
    ensures 1 <= v.own[b].frags <= v.g.frag
  {
    hide CgOk;
    Recompose(b, v.g.fpg);
  }

  lemma GiveReady(v: Vol, b: nat, cg: nat, loc: nat)
    requires BlocksOk(v) && b in v.own && cg == Quot(b, v.g.fpg) && loc == Rem(b, v.g.fpg)
    ensures GoodLoc(v.g, cg, loc) && CgBase(v.g, cg) + loc == b && 1 <= v.own[b].frags <= v.g.frag
    ensures BlocksOk(Give(v, cg, loc)) && InodeSideSame(v, Give(v, cg, loc)) && Give(v, cg, loc).own == v.own - {b}
    ensures v.cgs[cg].cs.nbfree + 1 < U32 && v.totals.nbfree + 1 < U32
    ensures AllFree(Mark(v.cgs[cg].free, loc, v.own[b].frags, true), loc, v.g.frag)
  {
    hide CgOk, OwnOk;
    OwnedBlock(v, b);
    var w := Give(v, cg, loc);
    GiveKeeps(v, cg, loc);
    GiveOkAt(v, cg, loc);
    CountsFit(w);
    assert w.cgs[cg].cs.nbfree < U32;
  }

  /** The block side of the invariant says nothing about the bytes. */
  lemma ImageIrrelevant(v: Vol, w: Vol)
    requires BlocksOk(v) && w == v.(img := w.img) && |w.img| == |v.img|
    ensures BlocksOk(w)
  {
  }

  /** Fragments in an allocation of `bytes` bytes. */
  lemma FragsOf(g: Geometry, bytes: nat)
    requires ValidGeometry(g)
    ensures bytes == g.bsize ==> Quot(bytes, g.fsize) == g.frag
    ensures g.fsize <= bytes < g.bsize ==> 1 <= Quot(bytes, g.fsize) < g.frag
  {
    Decompose(g.frag, 0, g.fsize);
    Recompose(bytes, g.fsize);
    if g.frag <= Quot(bytes, g.fsize) { MulAdd(g.frag, Quot(bytes, g.fsize) - g.frag, g.fsize); }
  }

  /** Every block of the data areas is taken. */
  ghost predicate NoSpace(g: Geometry, own: map<nat, Claim>) {
    ValidGeometry(g) && forall b: nat | GoodBlock(g, b) :: b in own
  }

  /** Once every group has been searched in vain, every block is owned. */
  lemma NoneLeft(v: Vol, start: nat)
    requires BlocksOk(v) && start < v.g.ncg
    requires forall cg: nat, loc: nat | GoodLoc(v.g, cg, loc) && Scanned(start, v.g.ncg, v.g.ncg, cg) ::
               !AllFree(v.cgs[cg].free, loc, v.g.frag)
    ensures NoSpace(v.g, v.own)
  {
    hide CgOk;
    forall b: nat | GoodBlock(v.g, b) ensures b in v.own {
      var cg, loc := Quot(b, v.g.fpg), Rem(b, v.g.fpg);
      Recompose(b, v.g.fpg);
      assert Scanned(start, v.g.ncg, v.g.ncg, cg);
      assert CgOk(v.g, v.own, cg, v.cgs[cg]);
      FreeIffUnowned(v.g, v.own, cg, v.cgs[cg], loc);
    }
  }

  /** A write inside one block, seen block by block. */
  lemma CopiedIn(g: Geometry, img: seq<byte>, b: nat, off: nat, d: seq<byte>)
    requires ValidGeometry(g) && |img| == Mul(g.dsize, g.fsize) && GoodBlock(g, b) && off + |d| <= g.bsize
    ensures Mul(b, g.fsize) + g.bsize <= |img|
    ensures var img' := Splice(img, Mul(b, g.fsize) + off, d);
      && |Region(g, img, b)| == g.bsize && Region(g, img', b) == Splice(Region(g, img, b), off, d)
      && SameExcept(g, img, img', {b})
  {
    hide ValidGeometry, GoodBlock, Mul, Splice;
    RegionInside(g, b);
    var lo := Mul(b, g.fsize);
    var img' := Splice(img, lo + off, d);
    assert Region(g, img', b) == Splice(Region(g, img, b), off, d);
    forall c | GoodBlock(g, c) && c != b ensures Region(g, img', c) == Region(g, img, c) {
      RegionInside(g, c);
      RegionsApart(g, b, c);
    }
  }

  class Volume {
    const g: Geometry
    const image: array<byte>
    var cgs: seq<Cg>
    var totals: Csum
    var inodes: seq<Dinode>
    ghost var own: map<nat, Claim>

    /** A volume on which nothing is allocated yet. */
    constructor (g: Geometry, image: array<byte>, cgs: seq<Cg>, totals: Csum, inodes: seq<Dinode>)
      ensures View() == Vol(g, image[..], cgs, totals, inodes, map[]) && this.image == image
    {
      this.g, this.image, this.cgs, this.totals, this.inodes, this.own := g, image, cgs, totals, inodes, map[];
    }

    ghost function View(): Vol
      reads this, image
    {
      Vol(g, image[..], cgs, totals, inodes, own)
    }

    /** Copies `d` into block `b` at byte `off`. */
    method CopyIn(b: nat, off: nat, d: seq<byte>)
      requires ValidGeometry(g) && image.Length == Mul(g.dsize, g.fsize)
      requires GoodBlock(g, b) && off + |d| <= g.bsize
      modifies image
      ensures |Region(g, old(image[..]), b)| == g.bsize
      ensures Region(g, image[..], b) == Splice(Region(g, old(image[..]), b), off, d)
      ensures SameExcept(g, old(image[..]), image[..], {b})
    {
      hide ValidGeometry, GoodBlock, Mul;
      var lo := Mul(b, g.fsize) + off;
      RegionInside(g, b);
      forall i | 0 <= i < |d| {
        image[lo + i] := d[i];
      }
      assert image[..] == Splice(old(image[..]), lo, d);
      CopiedIn(g, old(image[..]), b, off, d);
    }

    /** First aligned, wholly free block of group `cg`, if any. */
    method FindFreeBlock(cg: nat) returns (r: Result<nat>)
      requires BlocksOk(View()) && cg < g.ncg
      ensures r.Ok? ==> GoodLoc(g, cg, r.value) && AllFree(cgs[cg].free, r.value, g.frag)
      ensures r.Ok? ==> forall loc: nat | GoodLoc(g, cg, loc) && loc < r.value :: !AllFree(cgs[cg].free, loc, g.frag)
      ensures r.Err? ==> forall loc: nat | GoodLoc(g, cg, loc) :: !AllFree(cgs[cg].free, loc, g.frag)
    {
      hide BlocksOk, OwnOk, GroupsOk;
      BlocksShape(View());
      var c := cgs[cg];
      var index := g.dblkno;
      while index < c.ndblk - g.frag + 1
        invariant g.dblkno <= index && Rem(index, g.frag) == 0
        invariant forall loc: nat | GoodLoc(g, cg, loc) && loc < index :: !AllFree(c.free, loc, g.frag)
      {
        var free := RunIsFree(c.free, index, g.frag);
        if free {
          return Ok(index);
        }
        RemStep(index, g.frag);
        forall loc: nat | GoodLoc(g, cg, loc) && loc < index + g.frag ensures !AllFree(c.free, loc, g.frag) {
          AlignedApart(loc, index, g.frag);
        }
        index := index + g.frag;
      }
      return Err;
    }

    /** Marks the run, drops the free-block counts and zeroes the bytes handed out. */
    method TakeRun(cg: nat, loc: nat, k: Claim) returns (b: nat)
      requires BlocksOk(View()) && GoodLoc(g, cg, loc) && AllFree(cgs[cg].free, loc, g.frag) && 1 <= k.frags <= g.frag
      modifies this, image
      ensures BlocksOk(View()) && Allocated(old(View()), View(), b, k)
      ensures b == CgBase(g, cg) + loc && Blanked(View(), b, Mul(k.frags, g.fsize))
    {
      hide CgOk, GroupsOk, OwnOk;
      ghost var v := View();
      TakeReady(v, cg, loc, k);
      b := MarkTaken(cg, loc, k);
      ghost var w := View();
      ZeroRun(b, k.frags);
      ImageIrrelevant(w, View());
    }

    method MarkTaken(cg: nat, loc: nat, k: Claim) returns (b: nat)
      requires Shape(View()) && GoodLoc(g, cg, loc) && 1 <= k.frags <= g.frag
      requires 0 < cgs[cg].cs.nbfree < U32 && 0 < totals.nbfree < U32
      modifies this
      ensures View() == Take(old(View()), cg, loc, k)
      ensures b == CgBase(g, cg) + loc
    {
      var c := cgs[cg];
      var bits := SetRun(c.free, loc, k.frags, false);
      cgs := cgs[cg := c.(free := bits, cs := c.cs.(nbfree := Adjust(c.cs.nbfree, -1)))];
      totals := totals.(nbfree := Adjust(totals.nbfree, -1));
      b := CgBase(g, cg) + loc;
      own := own[b := k];
    }

    /** Zeroes the first `frags` fragments of block `b`. */
    method ZeroRun(b: nat, frags: nat)
      requires ValidGeometry(g) && image.Length == Mul(g.dsize, g.fsize) && GoodBlock(g, b) && frags <= g.frag
      modifies image
      ensures SameExcept(g, old(image[..]), image[..], {b})
      ensures |Region(g, image[..], b)| == g.bsize && Mul(frags, g.fsize) <= g.bsize
      ensures Region(g, image[..], b)[..Mul(frags, g.fsize)] == Zeros(Mul(frags, g.fsize))
    {
      MulAdd(frags, g.frag - frags, g.fsize);
      CopyIn(b, 0, Zeros(Mul(frags, g.fsize)));
    }

    /** `allocate_block` / `allocate_fragments`: the first free block, scanning from the inode's group. */
    method AllocateRun(ino: nat, frags: nat) returns (r: Result<nat>)
      requires BlocksOk(View()) && ino < |inodes| && 1 <= frags <= g.frag
      modifies this, image
      ensures r.Ok? ==> BlocksOk(View()) && Allocated(old(View()), View(), r.value, Claim(ino, frags))
      ensures r.Ok? ==> Blanked(View(), r.value, Mul(frags, g.fsize))
      ensures r.Ok? ==> Quot(ino, g.ipg) < g.ncg && exists cg: nat, loc: nat ::
                FirstFree(old(View()), Quot(ino, g.ipg), cg, loc) && r.value == CgBase(g, cg) + loc
      ensures r.Err? ==> View() == old(View()) && NoSpace(g, own)
    {
      hide BlocksOk, Allocated, NoSpace, Blanked;
      BlocksShape(View());
      GroupOf(g, ino);
      var start := Quot(ino, g.ipg);
      for attempt := 0 to g.ncg
        invariant View() == old(View())
        invariant forall cg: nat, loc: nat | GoodLoc(g, cg, loc) && Scanned(start, attempt, g.ncg, cg) ::
                    !AllFree(cgs[cg].free, loc, g.frag)
      {
        var cg := Rem(start + attempt, g.ncg);
        WrapIs(start + attempt, g.ncg);
        var found := FindFreeBlock(cg);
        if found.Ok? {
          assert FirstFree(View(), start, cg, found.value);
          var b := TakeRun(cg, found.value, Claim(ino, frags));
          return Ok(b);
        }
      }
      NoneLeft(View(), start);
      return Err;
    }

    /** `allocate_allocation`: a whole block or a run of fragments, by size in bytes. */
    method AllocateAllocation(ino: nat, bytes: int) returns (r: Result<nat>)
      requires BlocksOk(View()) && ino < |inodes|
      modifies this, image
      ensures r.Ok? ==> 0 < bytes <= g.bsize && 1 <= Quot(bytes, g.fsize) <= g.frag
      ensures r.Ok? ==> BlocksOk(View()) && Allocated(old(View()), View(), r.value, Claim(ino, Quot(bytes, g.fsize)))
      ensures r.Ok? ==> Blanked(View(), r.value, Mul(Quot(bytes, g.fsize), g.fsize))
      ensures r.Err? ==> View() == old(View()) && (!(g.fsize <= bytes <= g.bsize) || NoSpace(g, own))
    {
      hide BlocksOk, Allocated, Blanked;
      BlocksShape(View());
      if bytes <= 0 {
        return Err;
      }
      FragsOf(g, bytes);
      if bytes == g.bsize {
        r := AllocateRun(ino, g.frag);
      } else {
        var frags := Quot(bytes, g.fsize);
        if frags <= 0 || bytes >= g.bsize {
          return Err;
        }
        r := AllocateRun(ino, frags);
      }
    }

    /** `free_allocation`: returns a claim's fragments to the free map. */
    method FreeAllocation(b: nat, bytes: nat)
      requires BlocksOk(View()) && b in own
      requires g.fsize <= bytes <= g.bsize && Quot(bytes, g.fsize) == own[b].frags
      modifies this
      ensures BlocksOk(View()) && InodeSideSame(old(View()), View())
      ensures own == old(own) - {b}
    {
      hide BlocksOk, InodeSideSame, Give;
      BlocksShape(View());
      var cg, loc := Quot(b, g.fpg), Rem(b, g.fpg);
      GiveReady(View(), b, cg, loc);
      FragsOf(g, bytes);
      MarkFreed(b, cg, loc, if bytes == g.bsize then g.frag else Quot(bytes, g.fsize), bytes == g.bsize);
    }

    method MarkFreed(ghost b: nat, cg: nat, loc: nat, frags: nat, block: bool)
      requires Shape(View()) && b in own && own[b].frags == frags
      requires GoodLoc(g, cg, loc) && CgBase(g, cg) + loc == b && frags <= g.frag
      requires cgs[cg].cs.nbfree + 1 < U32 && totals.nbfree + 1 < U32
      requires AllFree(Mark(cgs[cg].free, loc, frags, true), loc, g.frag)
      modifies this
      ensures View() == Give(old(View()), cg, loc)
    {
      var c := cgs[cg];
      var bits := SetRun(c.free, loc, frags, true);
      var base := loc - Rem(loc, g.frag);
      var whole := RunIsFree(bits, base, g.frag);
      if block || whole {
        c := c.(cs := c.cs.(nbfree := Adjust(c.cs.nbfree, 1)));
        totals := totals.(nbfree := Adjust(totals.nbfree, 1));
      }
      cgs := cgs[cg := c.(free := bits)];
      own := own - {b};
    }
  }
}
