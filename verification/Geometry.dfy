/**
 Products and quotients of two variables, kept behind recursive definitions so
 that the solver treats them as ordinary symbols; each law is proved once here.
 */
module Arith {

  /** `a * b`, by repeated addition. */
  function Mul(a: nat, b: nat): nat
    decreases a
  {
    if a == 0 then 0 else Mul(a - 1, b) + b
  }

  /** `a / d`, by repeated subtraction. */
  function Quot(a: nat, d: nat): nat
    requires 0 < d
    decreases a
  {
    if a < d then 0 else 1 + Quot(a - d, d)
  }

  /** `a % d`, by repeated subtraction. */
  function Rem(a: nat, d: nat): nat
    requires 0 < d
    decreases a
  {
    if a < d then a else Rem(a - d, d)
  }

  lemma {:induction false} MulIsProduct(a: nat, b: nat)
    ensures Mul(a, b) == a * b
    decreases a
  {
    if a != 0 { MulIsProduct(a - 1, b); }
  }

  lemma {:induction false} QuotIsDivision(a: nat, d: nat)
    requires 0 < d
    ensures Quot(a, d) == a / d && Rem(a, d) == a % d
    decreases a
  {
    if a >= d {
      QuotIsDivision(a - d, d);
      DivStep(a, d);
    }
  }

  lemma DivStep(a: nat, d: nat)
    requires 0 < d <= a
    ensures a / d == 1 + (a - d) / d && a % d == (a - d) % d
  {
    var q, r := (a - d) / d, (a - d) % d;
    assert a == (q + 1) * d + r;
    Unique(q + 1, r, a / d, a % d, d);
  }

  lemma Unique(q: nat, r: nat, p: nat, s: nat, d: nat)
    requires r < d && s < d && q * d + r == p * d + s
    ensures q == p && r == s
  {
    Below(q, p, d);
    Below(p, q, d);
  }

  lemma Below(q: nat, p: nat, d: nat)
    ensures q < p ==> q * d + d <= p * d
  {
    if q < p { assert (q + 1) * d <= p * d; }
  }

  lemma {:induction false} MulAdd(a: nat, b: nat, d: nat)
    ensures Mul(a + b, d) == Mul(a, d) + Mul(b, d)
    decreases a
  {
    if a != 0 { MulAdd(a - 1, b, d); }
  }

  lemma MulZero(d: nat)
    ensures Mul(0, d) == 0
  {
  }

  lemma MulSucc(a: nat, d: nat)
    ensures Mul(a + 1, d) == Mul(a, d) + d
  {
  }

  lemma MulLess(a: nat, b: nat, d: nat)
    requires a < b
    ensures Mul(a, d) + d <= Mul(b, d)
  {
    MulAdd(a, b - a, d);
    MulAdd(1, b - a - 1, d);
  }

  lemma {:induction false} Recompose(a: nat, d: nat)
    requires 0 < d
    ensures a == Mul(Quot(a, d), d) + Rem(a, d) && Rem(a, d) < d
    decreases a
  {
    if a >= d { Recompose(a - d, d); }
  }

  lemma {:induction false} Decompose(q: nat, r: nat, d: nat)
    requires r < d
    ensures Quot(Mul(q, d) + r, d) == q && Rem(Mul(q, d) + r, d) == r
    decreases q
  {
    if q != 0 { Decompose(q - 1, r, d); }
  }

  /** Stepping by `d` does not change the remainder. */
  lemma RemStep(a: nat, d: nat)
    requires 0 < d
    ensures Rem(a + d, d) == Rem(a, d)
  {
  }

  /** An offset inside an aligned run keeps its base. */
  lemma RemOffset(a: nat, o: nat, d: nat)
    requires o < d && Rem(a, d) == 0
    ensures Rem(a + o, d) == o
  {
    Recompose(a, d);
    Decompose(Quot(a, d), o, d);
  }

  lemma RemBase(a: nat, d: nat)
    requires 0 < d
    ensures Rem(a, d) <= a && Rem(a - Rem(a, d), d) == 0
  {
    Recompose(a, d);
    Decompose(Quot(a, d), 0, d);
  }

  /** Two multiples of `d` are equal or at least `d` apart. */
  lemma AlignedApart(a: nat, b: nat, d: nat)
    requires 0 < d && Rem(a, d) == 0 && Rem(b, d) == 0
    ensures a == b || a + d <= b || b + d <= a
  {
    Recompose(a, d);
    Recompose(b, d);
    if Quot(a, d) < Quot(b, d) { MulLess(Quot(a, d), Quot(b, d), d); }
    if Quot(b, d) < Quot(a, d) { MulLess(Quot(b, d), Quot(a, d), d); }
  }
}

/**
 Superblock geometry: the address arithmetic every other part of the filesystem
 relies on, for the shape the formatter produces (`cgoffset = 0`).
 */
module Geometry {
  import opened Arith

  type byte = b: int | 0 <= b < 256
  type word = w: int | 0 <= w < 0x1_0000_0000

  const SECTOR: nat := 512
  const NDADDR: nat := 12
  const ROOT: nat := 2
  const U32: nat := 0x1_0000_0000
  const I31: nat := 0x8000_0000
  const MAXCPG: nat := 32

  /** The superblock fields the allocator, reader and writer consult. */
  datatype Geometry = Geometry(
    bsize: nat,   // bytes per block
    fsize: nat,   // bytes per fragment
    frag: nat,    // fragments per block
    nspf: nat,    // sectors per fragment
    dsize: nat,   // fragments in the slice
    fpg: nat,     // fragments per cylinder group
    ncg: nat,     // cylinder groups
    ipg: nat,     // inodes per group
    dblkno: nat,  // first data fragment of a group
    nindir: nat)  // pointers per pointer block

  /** Number of blocks one indirect tree of the given depth can address. */
  function Reach(n: nat, levels: nat): nat {
    if levels == 0 then 1 else Mul(n, Reach(n, levels - 1))
  }

  function Capacity(n: nat): nat {
    NDADDR + Reach(n, 1) + Reach(n, 2) + Reach(n, 3)
  }

  ghost predicate ValidGeometry(g: Geometry) {
    && 0 < g.nspf && g.fsize == SECTOR * g.nspf
    && 0 < g.frag && g.bsize == Mul(g.frag, g.fsize)
    && 0 < g.dblkno < g.fpg && Rem(g.dblkno, g.frag) == 0
    && 0 < g.ncg && ROOT < g.ipg && Mul(g.ncg, g.ipg) < U32
    && 0 < g.dsize < U32 && Mul(g.dsize, g.nspf) < U32
    && 0 < g.nindir && 4 * g.nindir <= g.bsize
    && g.dsize < Mul(Capacity(g.nindir), g.frag)
  }

  function Min(a: int, b: int): int { if a < b then a else b }
  function Max(a: int, b: int): int { if a < b then b else a }

  /** `cgbase`: first fragment of group `cg`. */
  function CgBase(g: Geometry, cg: nat): nat { Mul(cg, g.fpg) }

  /** `cg_data_frag_count`: fragments of the slice that fall in group `cg`. */
  function CgFrags(g: Geometry, cg: nat): nat {
    var remaining := g.dsize - CgBase(g, cg);
    if remaining <= 0 then 0 else Min(g.fpg, remaining)
  }

  /** `loc` is a whole, aligned block in the data area of group `cg`. */
  ghost predicate GoodLoc(g: Geometry, cg: nat, loc: nat)
    requires ValidGeometry(g)
  {
    cg < g.ncg && Rem(loc, g.frag) == 0 && g.dblkno <= loc && loc + g.frag <= CgFrags(g, cg)
  }

  /** The same, for an absolute fragment number. */
  ghost predicate GoodBlock(g: Geometry, b: nat)
    requires ValidGeometry(g)
  {
    GoodLoc(g, Quot(b, g.fpg), Rem(b, g.fpg))
  }

  lemma GoodAt(g: Geometry, cg: nat, loc: nat)
    requires ValidGeometry(g) && GoodLoc(g, cg, loc)
    ensures GoodBlock(g, CgBase(g, cg) + loc)
    ensures Quot(CgBase(g, cg) + loc, g.fpg) == cg && Rem(CgBase(g, cg) + loc, g.fpg) == loc
  {
    Decompose(cg, loc, g.fpg);
  }

  /** Distinct good blocks never overlap. */
  lemma GoodBlocksApart(g: Geometry, b: nat, c: nat)
    requires ValidGeometry(g) && GoodBlock(g, b) && GoodBlock(g, c) && b != c
    ensures b + g.frag <= c || c + g.frag <= b
  {
    Recompose(b, g.fpg);
    Recompose(c, g.fpg);
    var p, q := Quot(b, g.fpg), Quot(c, g.fpg);
    if p == q {
      AlignedApart(Rem(b, g.fpg), Rem(c, g.fpg), g.frag);
    } else if p < q {
      MulLess(p, q, g.fpg);
    } else {
      MulLess(q, p, g.fpg);
    }
  }

  /** A good block is nonzero and lies inside the slice. */
  lemma GoodBlockBounds(g: Geometry, b: nat)
    requires ValidGeometry(g) && GoodBlock(g, b)
    ensures 0 < b && b + g.frag <= g.dsize && b < U32
  {
    Recompose(b, g.fpg);
  }
}
