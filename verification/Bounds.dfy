/** Counting: what fits in the slice bounds every block count and sector count. */
module Bounds {
  import opened Arith
  import opened Geometry
  import opened VolumeState
  import opened Pointers
  import opened Inodes

  /** Fragments `b, ..., b + n - 1`. */
  ghost function Run(b: nat, n: nat): (r: set<nat>)
    ensures |r| == n && forall x: nat :: x in r <==> b <= x < b + n
    decreases n
  {
    if n == 0 then {} else Run(b, n - 1) + {b + n - 1}
  }

  /** The fragments under a list of allocations. */
  ghost function Cover(g: Geometry, bs: seq<nat>, sizes: seq<nat>): set<nat>
    requires |bs| == |sizes| && 0 < g.fsize
  {
    if bs == [] then {} else
      Cover(g, bs[..|bs| - 1], sizes[..|bs| - 1]) + Run(bs[|bs| - 1], Quot(sizes[|bs| - 1], g.fsize))
  }

  /** Fragment `x` lies in one of the blocks. */
  ghost predicate InSome(g: Geometry, bs: seq<nat>, x: nat) { exists i :: 0 <= i < |bs| && bs[i] <= x < bs[i] + g.frag }

  lemma {:induction false} CoverNear(g: Geometry, bs: seq<nat>, sizes: seq<nat>, x: nat)
    requires 0 < g.fsize && |bs| == |sizes| && forall i | 0 <= i < |bs| :: Quot(sizes[i], g.fsize) <= g.frag
    requires x in Cover(g, bs, sizes)
    ensures InSome(g, bs, x)
    decreases |bs|
  {
    hide Run, Quot;
    var n := |bs| - 1;
    if x in Cover(g, bs[..n], sizes[..n]) {
      CoverNear(g, bs[..n], sizes[..n], x);
      var i :| 0 <= i < n && bs[..n][i] <= x < bs[..n][i] + g.frag;
      assert bs[i] <= x < bs[i] + g.frag;
    } else {
      assert bs[n] <= x < bs[n] + g.frag;
    }
  }

  lemma {:induction false} CoverSize(g: Geometry, bs: seq<nat>, sizes: seq<nat>)
    requires ValidGeometry(g) && |bs| == |sizes| && NoDup(bs)
    requires forall i | 0 <= i < |bs| :: GoodBlock(g, bs[i]) && Quot(sizes[i], g.fsize) <= g.frag
    ensures |Cover(g, bs, sizes)| == FragSum(g, sizes)
    decreases |bs|
  {
    hide GoodBlock, Run, Quot, InSome;
    if bs != [] {
      var n := |bs| - 1;
      CoverSize(g, bs[..n], sizes[..n]);
      var b, k := bs[n], Quot(sizes[n], g.fsize);
      var front := Cover(g, bs[..n], sizes[..n]);
      forall x | x in front ensures x !in Run(b, k) {
        CoverNear(g, bs[..n], sizes[..n], x);
        NotInSome(g, bs, n, x);
      }
      assert front !! Run(b, k);
    }
  }

  lemma NotInSome(g: Geometry, bs: seq<nat>, n: nat, x: nat)
    requires ValidGeometry(g) && n < |bs| && NoDup(bs) && (forall i | 0 <= i < |bs| :: GoodBlock(g, bs[i])) && InSome(g, bs[..n], x)
    ensures x < bs[n] || bs[n] + g.frag <= x
  {
    hide GoodBlock, ValidGeometry;
    var i :| 0 <= i < n && bs[..n][i] <= x < bs[..n][i] + g.frag;
    GoodBlocksApart(g, bs[i], bs[n]);
  }

  lemma CoverInside(g: Geometry, bs: seq<nat>, sizes: seq<nat>)
    requires ValidGeometry(g) && |bs| == |sizes|
    requires forall i | 0 <= i < |bs| :: GoodBlock(g, bs[i]) && Quot(sizes[i], g.fsize) <= g.frag
    ensures Cover(g, bs, sizes) <= Run(0, g.dsize)
  {
    hide GoodBlock, Run, Quot, ValidGeometry;
    BsizePositive(g);
    forall x | x in Cover(g, bs, sizes) ensures x in Run(0, g.dsize) {
      CoverNear(g, bs, sizes, x);
      var i :| 0 <= i < |bs| && bs[i] <= x < bs[i] + g.frag;
      GoodBlockBounds(g, bs[i]);
    }
  }

  /** Distinct allocations together hold no more fragments than the slice. */
  lemma FragSumFits(g: Geometry, bs: seq<nat>, sizes: seq<nat>)
    requires ValidGeometry(g) && |bs| == |sizes| && NoDup(bs)
    requires forall i | 0 <= i < |bs| :: GoodBlock(g, bs[i]) && Quot(sizes[i], g.fsize) <= g.frag
    ensures FragSum(g, sizes) <= g.dsize
  {
    CoverSize(g, bs, sizes);
    CoverInside(g, bs, sizes);
    SubsetSize(Cover(g, bs, sizes), Run(0, g.dsize));
  }

  lemma {:induction false} SubsetSize(a: set<nat>, b: set<nat>)
    requires a <= b
    ensures |a| <= |b|
  {
    assert b == a + (b - a);
  }

  lemma {:induction false} FragSumConcat(g: Geometry, a: seq<nat>, b: seq<nat>)
    requires 0 < g.fsize
    ensures FragSum(g, a + b) == FragSum(g, a) + FragSum(g, b)
    decreases |b|
  {
    if b == [] {
      assert a + b == a;
    } else {
      var n := |b| - 1;
      assert (a + b)[..|a + b| - 1] == a + b[..n];
      FragSumConcat(g, a, b[..n]);
    }
  }

  lemma {:induction false} FragSumWhole(g: Geometry, k: nat)
    requires ValidGeometry(g)
    ensures FragSum(g, seq(k, _ => g.bsize)) == Mul(k, g.frag)
    decreases k
  {
    if k != 0 {
      FragSumWhole(g, k - 1);
      WholeGood(g);
      assert seq(k, _ => g.bsize)[..k - 1] == seq(k - 1, _ => g.bsize);
      MulSucc(k - 1, g.frag);
    }
  }

  /** All blocks but the last are full. */
  lemma {:induction false} FragSumAtLeast(g: Geometry, size: nat, whole: bool)
    requires ValidGeometry(g) && 0 < g.bsize && 0 < size
    ensures 0 < |Sizes(g, size, whole)| && Mul(|Sizes(g, size, whole)| - 1, g.frag) < FragSum(g, Sizes(g, size, whole))
    decreases size
  {
    SizesShape(g, size, whole);
    WholeGood(g);
    if size <= g.bsize {
      var s := Sizes(g, size, whole);
      if size == g.bsize { assert Sizes(g, 0, whole) == []; }
      assert |s| == 1 && FragSum(g, s[..0]) == 0 && GoodSize(g, s[0]);
    } else {
      var rest := Sizes(g, size - g.bsize, whole);
      FragSumAtLeast(g, size - g.bsize, whole);
      FragSumConcat(g, [g.bsize], rest);
      assert [g.bsize][..0] == [];
      MulSucc(|rest| - 1, g.frag);
    }
  }

  /** Whatever could be allocated, the pointer structure can address. */
  lemma AllocatedFits(g: Geometry, bs: seq<nat>, size: nat)
    requires ValidGeometry(g) && 0 < g.bsize && |bs| == |AllocSizes(g, size)| && NoDup(bs)
    requires forall i | 0 <= i < |bs| :: GoodBlock(g, bs[i])
    ensures |bs| <= Capacity(g.nindir)
  {
    hide Capacity, Sizes, GoodBlock;
    if size > 0 {
      SizesShape(g, size, Need(g, size) > NDADDR);
      FragSumAtLeast(g, size, Need(g, size) > NDADDR);
      FragSumFits(g, bs, AllocSizes(g, size));
      if Capacity(g.nindir) < |bs| {
        MulAdd(Capacity(g.nindir), |bs| - 1 - Capacity(g.nindir), g.frag);
      }
    } else {
      SizesShape(g, 0, false);
    }
  }

  // --- sectors in closed form ------------------------------------------------

  lemma QuotAdd(q: nat, x: nat, d: nat)
    requires 0 < d
    ensures Quot(Mul(q, d) + x, d) == q + Quot(x, d)
  {
    Recompose(x, d);
    MulAdd(q, Quot(x, d), d);
    Decompose(q + Quot(x, d), Rem(x, d), d);
  }

  lemma {:induction false} RowOfLeaves(n: nat, k: nat)
    requires 0 < n
    ensures ForestCount(n, 1, k) == Quot(k + n - 1, n)
    decreases k
  {
    MulIsProduct(n, 1);
    assert Reach(n, 0) == 1 && Reach(n, 1) == n;
    if k > n {
      RowOfLeaves(n, k - n);
      assert TreeCount(n, 1, n) == 1;
    } else if k > 0 {
      assert Quot(k - 1, n) == 0;
    }
  }

  lemma {:induction false} RowOfDoubles(n: nat, k: nat)
    requires 0 < n
    ensures ForestCount(n, 2, k) == Quot(k + n - 1, n) + if k == 0 then 0 else 1 + Quot(k - 1, Mul(n, n))
    decreases k
  {
    hide Mul, Quot;
    var c := Mul(n, n);
    ReachTwo(n);
    RowOfLeaves(n, Min(k, c));
    RowStep(n, k);
    if k > c {
      RowOfDoubles(n, k - c);
      QuotAdd(n, n - 1, n);
      QuotAdd(n, k - c + n - 1, n);
      QuotStep(k - 1, c);
      QuotSmall(n - 1, n);
    } else if k > 0 {
      QuotSmall(k - 1, c);
    } else {
      QuotSmall(n - 1, n);
    }
  }

  lemma ReachTwo(n: nat)
    requires 0 < n
    ensures Reach(n, 1) == n && Reach(n, 2) == Mul(n, n) && 0 < Mul(n, n)
  {
    MulIsProduct(n, 1);
    MulIsProduct(n, n);
    assert Reach(n, 0) == 1;
  }

  lemma RowStep(n: nat, k: nat)
    requires 0 < n && Reach(n, 2) == Mul(n, n) && 0 < Mul(n, n)
    ensures ForestCount(n, 2, k) ==
              if k == 0 then 0
              else if k <= Mul(n, n) then 1 + ForestCount(n, 1, k)
              else 1 + ForestCount(n, 1, Mul(n, n)) + ForestCount(n, 2, k - Mul(n, n))
  {
    hide Mul, Reach;
  }

  lemma QuotStep(a: nat, d: nat)
    requires 0 < d <= a
    ensures Quot(a, d) == 1 + Quot(a - d, d)
  {
  }

  lemma QuotSmall(a: nat, d: nat)
    requires a < d
    ensures Quot(a, d) == 0
  {
  }

  /** Pointer blocks of a file of `k` blocks, counted level by level. */
  lemma PointersNeeded(n: nat, k: nat)
    requires 0 < n && k <= Capacity(n)
    ensures PointerCount(n, k) ==
              if k <= NDADDR then 0
              else if k <= NDADDR + n then 1
              else if k <= NDADDR + n + n * n then 2 + (k - NDADDR - n + n - 1) / n
              else 3 + n + (k - NDADDR - n - n * n + n - 1) / n + (k - NDADDR - n - n * n + n * n - 1) / (n * n)
  {
    hide Mul, Quot, TreeCount, ForestCount, Reach;
    ReachTwo(n);
    MulIsProduct(n, n);
    var a := if k > NDADDR then k - NDADDR else 0;
    var b := a - Min(a, n);
    var c := b - Min(b, n * n);
    TreeOne(n, Min(a, n));
    TreeTwo(n, Min(b, n * n));
    TreeThree(n, c);
    QuotIsDivision(b + n - 1, n);
    QuotIsDivision(n * n + n - 1, n);
    QuotAdd(n, n - 1, n);
    QuotSmall(n - 1, n);
    QuotIsDivision(c + n - 1, n);
    QuotIsDivision(c + n * n - 1, n * n);
  }

  lemma TreeOne(n: nat, k: nat)
    ensures TreeCount(n, 1, k) == if k == 0 then 0 else 1
  {
  }

  lemma TreeTwo(n: nat, k: nat)
    requires 0 < n
    ensures TreeCount(n, 2, k) == if k == 0 then 0 else 1 + Quot(k + n - 1, n)
  {
    RowOfLeaves(n, k);
  }

  lemma TreeThree(n: nat, k: nat)
    requires 0 < n
    ensures 0 < n * n && TreeCount(n, 3, k) == if k == 0 then 0 else 1 + Quot(k + n - 1, n) + Quot(k + n * n - 1, n * n)
  {
    hide Mul;
    ReachTwo(n);
    MulIsProduct(n, n);
    RowOfDoubles(n, k);
    if k > 0 { QuotStep(k + n * n - 1, n * n); }
  }

  /** The recorded sectors, in bytes: the file's blocks and pointer blocks whole, but for the last allocation. */
  lemma SectorBytes(g: Geometry, size: nat)
    requires ValidGeometry(g) && 0 < g.bsize && 0 < g.fsize && 0 < size
    ensures var r := AllocSizes(g, size);
      && Fitted(g, size, r)
      && Sectors(g, size) * SECTOR == (|r| - 1 + PointerCount(g.nindir, |r|)) * g.bsize + r[|r| - 1]
  {
    hide Sizes, TailFits, PointerCount, Capacity, Need;
    var r := AllocSizes(g, size);
    SizesFitted(g, size);
    SizesShape(g, size, Need(g, size) > NDADDR);
    var front, last := r[..|r| - 1], r[|r| - 1];
    assert r == front + [last] && front == seq(|front|, _ => g.bsize);
    FragSumConcat(g, front, [last]);
    FragSumWhole(g, |front|);
    LastFrags(g, last);
    var p := PointerCount(g.nindir, |r|);
    MulIsProduct(|front|, g.frag);
    MulIsProduct(p, g.frag);
    MulIsProduct(g.frag, g.fsize);
    MulIsProduct(Quot(last, g.fsize), g.fsize);
    MulIsProduct(FragSum(g, r) + Mul(p, g.frag), g.nspf);
    Expand(|front|, p, Quot(last, g.fsize), g.frag, g.fsize, g.nspf);
  }

  lemma LastFrags(g: Geometry, a: nat)
    requires 0 < g.fsize && GoodSize(g, a)
    ensures FragSum(g, [a]) == Quot(a, g.fsize) && a == Mul(Quot(a, g.fsize), g.fsize)
  {
    assert [a][..0] == [];
  }

  lemma Expand(k: nat, p: nat, q: nat, frag: nat, fsize: nat, nspf: nat)
    requires fsize == SECTOR * nspf
    ensures (k * frag + q + p * frag) * nspf * SECTOR == (k + p) * (frag * fsize) + q * fsize
  {
    var f := (k + p) * frag + q;
    assert k * frag + q + p * frag == f;
    assert f * nspf * SECTOR == f * fsize;
    assert f * fsize == (k + p) * frag * fsize + q * fsize;
  }

  /** An inode's sector count fits its 32-bit field. */
  lemma SectorsFit(g: Geometry, bs: seq<nat>, sizes: seq<nat>, ps: seq<nat>)
    requires ValidGeometry(g) && |bs| == |sizes| && NoDup(bs + ps)
    requires forall i | 0 <= i < |bs| :: GoodBlock(g, bs[i]) && Quot(sizes[i], g.fsize) <= g.frag
    requires forall i | 0 <= i < |ps| :: GoodBlock(g, ps[i])
    ensures SectorCount(g, sizes, |ps|) < U32
  {
    hide GoodBlock, ValidGeometry;
    var whole := seq(|ps|, _ => g.bsize);
    assert ValidGeometry(g);
    WholeGood(g);
    FragSumWhole(g, |ps|);
    FragSumConcat(g, sizes, whole);
    FragSumFits(g, bs + ps, sizes + whole);
    var total := FragSum(g, sizes) + Mul(|ps|, g.frag);
    SectorLimit(g, total);
  }

  lemma SectorLimit(g: Geometry, total: nat)
    requires ValidGeometry(g) && total <= g.dsize
    ensures Mul(total, g.nspf) < U32
  {
    MulAdd(total, g.dsize - total, g.nspf);
  }
}
