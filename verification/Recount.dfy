/** The full recount of every group's summary from its bitmaps and inodes. */
module Recount {
  import opened Arith
  import opened Geometry
  import opened VolumeState
  import opened Alloc
  import opened InodeAlloc

  const MAXFRAG: nat := 8
  const NRPOS: nat := 8

  // --- counting fragments ----------------------------------------------------

  /** Set entries among `[lo, hi)`. */
  function CountSet(bits: seq<bool>, lo: nat, hi: nat): nat
    requires lo <= hi <= |bits|
    decreases hi - lo
  {
    if lo == hi then 0 else CountSet(bits, lo, hi - 1) + One(bits[hi - 1])
  }

  /** Free fragments outside wholly free blocks, from the aligned position `loc` on. */
  ghost function Loose(bits: seq<bool>, frag: nat, loc: nat, limit: nat): nat
    requires 0 < frag && limit <= |bits|
    decreases limit - loc
  {
    if limit <= loc then 0
    else if limit < loc + frag then CountSet(bits, loc, limit)
    else (if AllFree(bits, loc, frag) then 0 else CountSet(bits, loc, loc + frag)) + Loose(bits, frag, loc + frag, limit)
  }

  lemma {:induction false} CountSplit(bits: seq<bool>, lo: nat, mid: nat, hi: nat)
    requires lo <= mid <= hi <= |bits|
    ensures CountSet(bits, lo, hi) == CountSet(bits, lo, mid) + CountSet(bits, mid, hi)
    decreases hi - mid
  {
    if mid < hi { CountSplit(bits, lo, mid, hi - 1); }
  }

  lemma {:induction false} CountAll(bits: seq<bool>, lo: nat, hi: nat)
    requires lo <= hi <= |bits|
    ensures CountSet(bits, lo, hi) <= hi - lo
    ensures CountSet(bits, lo, hi) == hi - lo <==> AllFree(bits, lo, hi - lo)
    ensures CountSet(bits, lo, hi) == 0 <==> forall i | lo <= i < hi :: !bits[i]
    decreases hi - lo
  {
    if lo < hi { CountAll(bits, lo, hi - 1); }
  }

  /** Every free fragment is counted once: in a free block, or as a loose fragment. */
  lemma {:induction false} CountsPartition(bits: seq<bool>, frag: nat, loc: nat, limit: nat)
    requires 0 < frag && loc <= limit <= |bits|
    ensures Mul(FreeBlocks(bits, frag, loc, limit), frag) + Loose(bits, frag, loc, limit) == CountSet(bits, loc, limit)
    decreases limit - loc
  {
    MulZero(frag);
    if loc + frag <= limit {
      CountsPartition(bits, frag, loc + frag, limit);
      CountSplit(bits, loc, loc + frag, limit);
      CountAll(bits, loc, loc + frag);
      var rest := FreeBlocks(bits, frag, loc + frag, limit);
      if AllFree(bits, loc, frag) { MulAdd(1, rest, frag); }
    }
  }

  // --- runs of free fragments ------------------------------------------------

  function Weighted(frsum: seq<nat>): nat {
    if frsum == [] then 0 else Weighted(frsum[..|frsum| - 1]) + Mul(|frsum| - 1, frsum[|frsum| - 1])
  }

  lemma {:induction false} WeightedBump(frsum: seq<nat>, k: nat)
    requires k < |frsum|
    ensures Weighted(frsum[k := frsum[k] + 1]) == Weighted(frsum) + k
    decreases |frsum|
  {
    var n := |frsum| - 1;
    var bumped := frsum[k := frsum[k] + 1];
    if k < n {
      assert bumped[..n] == frsum[..n][k := frsum[k] + 1];
      WeightedBump(frsum[..n], k);
    } else {
      assert bumped[..n] == frsum[..n];
      MulIsProduct(n, frsum[n]);
      MulIsProduct(n, frsum[n] + 1);
      assert n * (frsum[n] + 1) == n * frsum[n] + n;
    }
  }

  /** Some `MAXFRAG` consecutive entries before `end` are all set. */
  ghost predicate LongRun(flags: seq<bool>, end: nat) {
    exists j: nat :: j + MAXFRAG <= end && AllFree(flags, j, MAXFRAG)
  }

  /** A run of exactly `k` set entries starts at `j`. */
  ghost predicate RunAt(flags: seq<bool>, j: nat, k: nat) {
    0 < k && AllFree(flags, j, k) && (0 < j <= |flags| ==> !flags[j - 1]) && (j + k < |flags| ==> !flags[j + k])
  }

  /** How many runs of exactly `k` start before `hi`. */
  ghost function RunsOf(flags: seq<bool>, k: nat, hi: nat): nat
    requires hi <= |flags|
  {
    if hi == 0 then 0 else RunsOf(flags, k, hi - 1) + One(RunAt(flags, hi - 1, k))
  }

  lemma {:induction false} NoRunStarts(flags: seq<bool>, k: nat, lo: nat, hi: nat)
    requires lo <= hi <= |flags| && forall j | lo <= j < hi :: !RunAt(flags, j, k)
    ensures RunsOf(flags, k, hi) == RunsOf(flags, k, lo)
    decreases hi - lo
  {
    if lo < hi { NoRunStarts(flags, k, lo, hi - 1); }
  }

  /** When a run ends at `i`, it is the only one that started since `i - run`. */
  lemma RunCounted(flags: seq<bool>, i: nat, run: nat, k: nat)
    requires run <= i <= |flags| && AllFree(flags, i - run, run) && (run < i ==> !flags[i - run - 1]) && (i < |flags| ==> !flags[i])
    ensures RunsOf(flags, k, Min(i + 1, |flags|)) == RunsOf(flags, k, i - run) + One(0 < run && k == run)
  {
    hide RunsOf;
    var hi := Min(i + 1, |flags|);
    forall j | i - run < j < hi ensures !RunAt(flags, j, k) { assert j < i ==> flags[j - 1]; }
    if run == 0 {
      NoRunStarts(flags, k, i, hi);
    } else {
      NoRunStarts(flags, k, i - run + 1, hi);
      OneRun(flags, i, run, k);
    }
  }

  lemma OneRun(flags: seq<bool>, i: nat, run: nat, k: nat)
    requires 0 < run <= i <= |flags| && AllFree(flags, i - run, run) && (run < i ==> !flags[i - run - 1]) && (i < |flags| ==> !flags[i])
    ensures RunsOf(flags, k, i - run + 1) == RunsOf(flags, k, i - run) + One(k == run)
  {
    if k < run { assert flags[i - run + k]; }
  }

  /** `account_fragment_run`: adds each run to the table; the weights are exact unless a run outgrows the table. */
  method AccountRuns(flags: seq<bool>, frsum: seq<nat>) returns (r: seq<nat>)
    requires |frsum| == MAXFRAG
    ensures |r| == MAXFRAG
    ensures forall k | 0 <= k < MAXFRAG :: r[k] == frsum[k] + RunsOf(flags, k, |flags|)
    ensures Weighted(r) <= Weighted(frsum) + CountSet(flags, 0, |flags|)
    ensures Weighted(r) == Weighted(frsum) + CountSet(flags, 0, |flags|) <==> !LongRun(flags, |flags|)
  {
    hide Weighted, LongRun, RunsOf;
    r := frsum;
    var run := 0;
    ghost var lost := 0;
    NoLongRun(flags);
    forall k: nat ensures RunsOf(flags, k, 0) == 0 { NoRunYet(flags, k); }
    for i := 0 to |flags| + 1
      invariant |r| == MAXFRAG && run <= i && (i == |flags| + 1 ==> run == 0) && (i <= |flags| ==> AllFree(flags, i - run, run))
      invariant run < i <= |flags| ==> !flags[i - run - 1]
      invariant Weighted(r) + run + lost == Weighted(frsum) + CountSet(flags, 0, Min(i, |flags|))
      invariant forall k | 0 <= k < MAXFRAG :: r[k] == frsum[k] + RunsOf(flags, k, Min(i, |flags|) - run)
      invariant lost == 0 <==> !LongRun(flags, Min(i, |flags|) - run)
    {
      var free := i < |flags| && flags[i];
      if free {
        run := run + 1;
      } else {
        RunEnds(flags, i, run);
        ghost var lo, hi := i - run, Min(i + 1, |flags|);
        forall k: nat ensures RunsOf(flags, k, hi) == RunsOf(flags, k, lo) + One(0 < run && k == run) {
          RunCounted(flags, i, run, k);
        }
        if 0 < run < |r| {
          WeightedBump(r, run);
          r := r[run := r[run] + 1];
        } else {
          lost := lost + run;
        }
        run := 0;
      }
    }
  }

  lemma NoLongRun(flags: seq<bool>)
    ensures !LongRun(flags, 0)
  {
  }

  lemma NoRunYet(flags: seq<bool>, k: nat)
    ensures RunsOf(flags, k, 0) == 0
  {
  }

  /** When a run ends at `i`, the long runs up to there are the earlier ones and this one. */
  lemma RunEnds(flags: seq<bool>, i: nat, run: nat)
    requires run <= i <= |flags| && AllFree(flags, i - run, run) && (run < i ==> !flags[i - run - 1]) && (i < |flags| ==> !flags[i])
    ensures LongRun(flags, i) <==> LongRun(flags, i - run) || run >= MAXFRAG
    ensures i < |flags| ==> (LongRun(flags, i + 1) <==> LongRun(flags, i))
  {
    if run >= MAXFRAG { assert AllFree(flags, i - run, MAXFRAG); }
    if LongRun(flags, i) {
      var j: nat :| j + MAXFRAG <= i && AllFree(flags, j, MAXFRAG);
      assert forall x | j <= x < j + MAXFRAG :: flags[x];
    }
    if i < |flags| && LongRun(flags, i + 1) {
      var j: nat :| j + MAXFRAG <= i + 1 && AllFree(flags, j, MAXFRAG);
      assert forall x | j <= x < j + MAXFRAG :: flags[x];
    }
  }

  // --- rotational tables -----------------------------------------------------

  function Sum(s: seq<nat>): nat {
    if s == [] then 0 else Sum(s[..|s| - 1]) + s[|s| - 1]
  }

  lemma {:induction false} SumBump(s: seq<nat>, k: nat)
    requires k < |s|
    ensures Sum(s[k := s[k] + 1]) == Sum(s) + 1
    decreases |s|
  {
    var n := |s| - 1;
    if k < n {
      assert s[k := s[k] + 1][..n] == s[..n][k := s[k] + 1];
      SumBump(s[..n], k);
    } else {
      assert s[k := s[k] + 1][..n] == s[..n];
    }
  }

  lemma {:induction false} SumZeros(n: nat)
    ensures Sum(seq(n, _ => 0)) == 0
    decreases n
  {
    if n != 0 {
      var z: seq<nat> := seq(n, _ => 0);
      assert z[..n - 1] == seq(n - 1, _ => 0);
      SumZeros(n - 1);
    }
  }

  /** Sectors per cylinder and per track, and sectors per fragment. */
  datatype Disk = Disk(spc: nat, nsect: nat, nspf: nat)

  /** `cbtocylno` and `cbtorpos`. */
  function Cylinder(k: Disk, frag: nat): nat {
    if k.spc == 0 || k.nspf == 0 then 0 else Quot(Mul(frag, k.nspf), k.spc)
  }

  function Position(k: Disk, frag: nat): nat {
    if k.spc == 0 || k.nsect == 0 || k.nspf == 0 then 0 else Quot(Mul(Rem(Rem(Mul(frag, k.nspf), k.spc), k.nsect), NRPOS), k.nsect)
  }

  /** A rotational position is always one of the eight. */
  lemma PositionFits(k: Disk, frag: nat)
    ensures Position(k, frag) < NRPOS
  {
    if !(k.spc == 0 || k.nsect == 0 || k.nspf == 0) {
      var r := Rem(Rem(Mul(frag, k.nspf), k.spc), k.nsect);
      Recompose(Rem(Mul(frag, k.nspf), k.spc), k.nsect);
      MulIsProduct(r, NRPOS);
      var q := Quot(r * NRPOS, k.nsect);
      Recompose(r * NRPOS, k.nsect);
      if q >= NRPOS {
        MulAdd(NRPOS, q - NRPOS, k.nsect);
        MulIsProduct(NRPOS, k.nsect);
      }
    }
  }

  /** A fragment's cylinder and rotational position: its first sector lies on cylinder `c`, in the eighth `p` of its track. */
  ghost predicate Located(k: Disk, f: nat, c: nat, p: nat)
    requires 0 < k.spc && 0 < k.nsect
  {
    var sector := f * k.nspf;
    && c * k.spc <= sector < (c + 1) * k.spc
    && p * k.nsect <= NRPOS * (sector % k.spc % k.nsect) < (p + 1) * k.nsect
  }

  lemma Placement(k: Disk, f: nat)
    requires 0 < k.spc && 0 < k.nsect && 0 < k.nspf
    ensures Located(k, f, Cylinder(k, f), Position(k, f))
  {
    hide Mul, Quot, Rem;
    MulIsProduct(f, k.nspf);
    Floor(f * k.nspf, k.spc);
    QuotIsDivision(f * k.nspf, k.spc);
    QuotIsDivision(f * k.nspf % k.spc, k.nsect);
    var r := f * k.nspf % k.spc % k.nsect;
    MulIsProduct(r, NRPOS);
    Floor(r * NRPOS, k.nsect);
  }

  lemma Floor(a: nat, d: nat)
    requires 0 < d
    ensures Quot(a, d) * d <= a < (Quot(a, d) + 1) * d
  {
    hide Mul, Quot, Rem;
    Recompose(a, d);
    MulIsProduct(Quot(a, d), d);
  }

  /** The tables of one group: free blocks by cylinder, and by cylinder and position. */
  datatype Tables = Tables(btot: seq<nat>, bpos: seq<nat>)

  ghost predicate TablesShape(t: Tables) { |t.btot| == MAXCPG && |t.bpos| == MAXCPG * NRPOS }

  /** Each cylinder's positions add up to its total. */
  ghost predicate RowsMatch(t: Tables)
    requires TablesShape(t)
  {
    forall c | 0 <= c < MAXCPG :: Sum(t.bpos[c * NRPOS..c * NRPOS + NRPOS]) == t.btot[c]
  }

  function NoTables(): Tables { Tables(seq(MAXCPG, _ => 0), seq(MAXCPG * NRPOS, _ => 0)) }

  lemma NoTablesMatch()
    ensures TablesShape(NoTables()) && RowsMatch(NoTables()) && Sum(NoTables().btot) == 0
  {
    var t := NoTables();
    SumZeros(MAXCPG);
    SumZeros(NRPOS);
    forall c | 0 <= c < MAXCPG ensures Sum(t.bpos[c * NRPOS..c * NRPOS + NRPOS]) == t.btot[c] {
      assert t.bpos[c * NRPOS..c * NRPOS + NRPOS] == seq(NRPOS, _ => 0);
    }
  }

  /** One more free block at fragment `f`. */
  function Noted(t: Tables, k: Disk, f: nat): Tables
    requires |t.btot| == MAXCPG && |t.bpos| == MAXCPG * NRPOS
  {
    var c, p := Cylinder(k, f), Position(k, f);
    if c < MAXCPG && p < NRPOS
    then Tables(t.btot[c := t.btot[c] + 1], t.bpos[c * NRPOS + p := t.bpos[c * NRPOS + p] + 1])
    else t
  }

  lemma NotedMatches(t: Tables, k: Disk, f: nat)
    requires TablesShape(t) && RowsMatch(t)
    ensures TablesShape(Noted(t, k, f)) && RowsMatch(Noted(t, k, f))
    ensures Sum(Noted(t, k, f).btot) == Sum(t.btot) + One(Cylinder(k, f) < MAXCPG)
  {
    hide Sum, Cylinder, Position;
    var c, p := Cylinder(k, f), Position(k, f);
    PositionFits(k, f);
    if c < MAXCPG {
      SumBump(t.btot, c);
      var row := t.bpos[c * NRPOS..c * NRPOS + NRPOS];
      SumBump(row, p);
      var u := Noted(t, k, f);
      forall d | 0 <= d < MAXCPG ensures Sum(u.bpos[d * NRPOS..d * NRPOS + NRPOS]) == u.btot[d] {
        if d == c {
          assert u.bpos[d * NRPOS..d * NRPOS + NRPOS] == row[p := row[p] + 1];
        } else {
          assert u.bpos[d * NRPOS..d * NRPOS + NRPOS] == t.bpos[d * NRPOS..d * NRPOS + NRPOS];
        }
      }
    }
  }

  /** The place of a fragment in the table of positions. */
  function Spot(k: Disk, f: nat): nat { Cylinder(k, f) * NRPOS + Position(k, f) }

  lemma NotedSpots(t: Tables, k: Disk, f: nat)
    requires TablesShape(t)
    ensures TablesShape(Noted(t, k, f))
    ensures forall i | 0 <= i < MAXCPG * NRPOS :: Noted(t, k, f).bpos[i] == t.bpos[i] + One(Spot(k, f) == i)
  {
    hide Cylinder, Position;
    PositionFits(k, f);
  }

  /** Wholly free blocks at one place of the table, from the aligned position `loc` on. */
  ghost function FreeAt(bits: seq<bool>, frag: nat, loc: nat, limit: nat, k: Disk, spot: nat): nat
    requires 0 < frag && limit <= |bits|
    decreases limit - loc
  {
    if limit < loc + frag then 0
    else One(AllFree(bits, loc, frag) && Spot(k, loc) == spot) + FreeAt(bits, frag, loc + frag, limit, k, spot)
  }

  /** Every place of the table holds the number of wholly free blocks there, and each row adds up to its total. */
  ghost predicate Tabled(bits: seq<bool>, frag: nat, limit: nat, k: Disk, t: Tables)
    requires 0 < frag && limit <= |bits|
  {
    TablesShape(t) && RowsMatch(t) && forall i | 0 <= i < MAXCPG * NRPOS :: t.bpos[i] == FreeAt(bits, frag, 0, limit, k, i)
  }

  /** Every wholly free block from `loc` on lies on one of the cylinders the table has room for. */
  ghost predicate OnTable(bits: seq<bool>, frag: nat, loc: nat, limit: nat, k: Disk)
    requires 0 < frag && limit <= |bits|
  {
    forall b: nat | loc <= b && b + frag <= limit && Rem(b, frag) == 0 && AllFree(bits, b, frag) :: Cylinder(k, b) < MAXCPG
  }

  lemma OnTableStep(bits: seq<bool>, frag: nat, loc: nat, limit: nat, k: Disk)
    requires 0 < frag && loc + frag <= limit <= |bits| && Rem(loc, frag) == 0
    ensures Rem(loc + frag, frag) == 0
    ensures OnTable(bits, frag, loc, limit, k) <==>
              (AllFree(bits, loc, frag) ==> Cylinder(k, loc) < MAXCPG) && OnTable(bits, frag, loc + frag, limit, k)
  {
    hide Rem, Cylinder;
    RemStep(loc, frag);
    forall b: nat | loc < b && Rem(b, frag) == 0 ensures loc + frag <= b { AlignedApart(loc, b, frag); }
  }

  /** Every fragment of the group lies on one of the cylinders the table has room for. */
  ghost predicate CylindersFit(k: Disk, limit: nat) { forall f: nat | f < limit :: Cylinder(k, f) < MAXCPG }

  lemma FitOnTable(bits: seq<bool>, frag: nat, limit: nat, k: Disk)
    requires 0 < frag && limit <= |bits| && CylindersFit(k, limit)
    ensures OnTable(bits, frag, 0, limit, k)
  {
    hide Cylinder, Rem;
  }

  /** Runs of exactly `k` free fragments outside wholly free blocks, from the aligned position `loc` on. */
  ghost function RunsIn(bits: seq<bool>, frag: nat, loc: nat, limit: nat, k: nat): nat
    requires 0 < frag && limit <= |bits|
    decreases limit - loc
  {
    if limit <= loc then 0
    else if limit < loc + frag then RunsOf(bits[loc..limit], k, limit - loc)
    else (if AllFree(bits, loc, frag) then 0 else RunsOf(bits[loc..loc + frag], k, frag)) + RunsIn(bits, frag, loc + frag, limit, k)
  }

  /** Every entry of the run table but those of runs from `base` on. */
  ghost predicate RunsSoFar(bits: seq<bool>, frag: nat, base: nat, limit: nat, frsum: seq<nat>)
    requires 0 < frag && limit <= |bits|
  {
    && |frsum| == MAXFRAG
    && forall k | 0 <= k < MAXFRAG :: frsum[k] + RunsIn(bits, frag, base, limit, k) == RunsIn(bits, frag, 0, limit, k)
  }

  /** The run table counts the runs of each length. */
  ghost predicate RunsTabled(bits: seq<bool>, frag: nat, limit: nat, frsum: seq<nat>)
    requires 0 < frag && limit <= |bits|
  {
    |frsum| == MAXFRAG && forall k | 0 <= k < MAXFRAG :: frsum[k] == RunsIn(bits, frag, 0, limit, k)
  }

  /** The window `[lo, hi)` accounted for, if it has a free fragment at all. */
  ghost predicate Accounted(bits: seq<bool>, lo: nat, hi: nat, before: seq<nat>, after: seq<nat>)
    requires lo <= hi <= |bits|
  {
    |before| == |after| == MAXFRAG && forall k | 0 <= k < MAXFRAG :: after[k] == before[k] + RunsOf(bits[lo..hi], k, hi - lo)
  }

  lemma NothingAccounted(bits: seq<bool>, lo: nat, hi: nat, frsum: seq<nat>)
    requires lo <= hi <= |bits| && |frsum| == MAXFRAG
    ensures CountSet(bits, lo, hi) == 0 ==> Accounted(bits, lo, hi, frsum, frsum)
  {
    hide RunsOf, CountSet;
    CountAll(bits, lo, hi);
    if CountSet(bits, lo, hi) == 0 {
      var w, n := bits[lo..hi], hi - lo;
      forall k: nat ensures RunsOf(w, k, n) == 0 {
        NoRunYet(w, k);
        forall j: nat | j < n ensures !RunAt(w, j, k) { assert !w[j]; }
        NoRunStarts(w, k, 0, n);
      }
    }
  }

  lemma RunsStep(bits: seq<bool>, frag: nat, base: nat, limit: nat, before: seq<nat>, after: seq<nat>)
    requires 0 < frag && base + frag <= limit <= |bits| && RunsSoFar(bits, frag, base, limit, before)
    requires if AllFree(bits, base, frag) then after == before else Accounted(bits, base, base + frag, before, after)
    ensures RunsSoFar(bits, frag, base + frag, limit, after)
  {
    hide RunsOf, AllFree;
    forall k | 0 <= k < MAXFRAG ensures RunsIn(bits, frag, base, limit, k) ==
      (if AllFree(bits, base, frag) then 0 else RunsOf(bits[base..base + frag], k, frag)) + RunsIn(bits, frag, base + frag, limit, k) {
    }
  }

  lemma RunsTail(bits: seq<bool>, frag: nat, base: nat, limit: nat, before: seq<nat>, after: seq<nat>)
    requires 0 < frag && base <= limit < base + frag && limit <= |bits| && RunsSoFar(bits, frag, base, limit, before)
    requires if base == limit then after == before else Accounted(bits, base, limit, before, after)
    ensures RunsTabled(bits, frag, limit, after)
  {
    hide RunsOf;
  }

  /** Outside wholly free blocks, no run of free fragments is as long as the run table. */
  ghost predicate Tame(bits: seq<bool>, frag: nat, loc: nat, limit: nat)
    requires 0 < frag && limit <= |bits|
    decreases limit - loc
  {
    if limit <= loc then true
    else if limit < loc + frag then !LongRun(bits[loc..limit], limit - loc)
    else (AllFree(bits, loc, frag) || !LongRun(bits[loc..loc + frag], frag)) && Tame(bits, frag, loc + frag, limit)
  }

  /** With at most eight fragments per block every map is tame. */
  lemma {:induction false} SmallBlocksTame(bits: seq<bool>, frag: nat, loc: nat, limit: nat)
    requires 0 < frag <= MAXFRAG && limit <= |bits|
    ensures Tame(bits, frag, loc, limit)
    decreases limit - loc
  {
    hide LongRun;
    if loc < limit < loc + frag {
      WindowRuns(bits, loc, limit);
    } else if loc < limit {
      WindowRuns(bits, loc, loc + frag);
      SmallBlocksTame(bits, frag, loc + frag, limit);
    }
  }

  /** The block half of `expected_cg_header`: counts, fragment runs and rotational tables of one group. */
  method SummarizeBlocks(bits: seq<bool>, frag: nat, ndblk: nat, k: Disk)
    returns (nbfree: nat, nffree: nat, frsum: seq<nat>, t: Tables)
    requires 0 < frag && ndblk <= |bits|
    ensures nbfree == FreeBlocks(bits, frag, 0, ndblk) && nffree == Loose(bits, frag, 0, ndblk)
    ensures RunsTabled(bits, frag, ndblk, frsum)
    ensures Weighted(frsum) <= nffree && (Weighted(frsum) == nffree <==> Tame(bits, frag, 0, ndblk))
    ensures Tabled(bits, frag, ndblk, k, t) && Sum(t.btot) <= nbfree && (Sum(t.btot) == nbfree <==> OnTable(bits, frag, 0, ndblk, k))
  {
    hide FreeBlocks, Loose, RowsMatch, Weighted, Sum, Cylinder, Noted, NoTables, LongRun, CountSet, Tame, FreeAt, Spot, OnTable, Rem, RunsOf, RunsIn;
    ghost var tame, on := true, true;
    nbfree, nffree, frsum, t := 0, 0, seq(MAXFRAG, _ => 0), NoTables();
    NoTablesMatch();
    WeightedZeros();
    FillingStarts(bits, frag, ndblk, k);
    var base := 0;
    while base + frag <= ndblk
      invariant base <= ndblk
      invariant nbfree + FreeBlocks(bits, frag, base, ndblk) == FreeBlocks(bits, frag, 0, ndblk)
      invariant nffree + Loose(bits, frag, base, ndblk) == Loose(bits, frag, 0, ndblk)
      invariant RunsSoFar(bits, frag, base, ndblk, frsum) && Weighted(frsum) <= nffree && (Weighted(frsum) == nffree <==> tame)
      invariant Tame(bits, frag, 0, ndblk) <==> tame && Tame(bits, frag, base, ndblk)
      invariant TablesShape(t) && RowsMatch(t) && Sum(t.btot) <= nbfree && (Sum(t.btot) == nbfree <==> on)
      invariant Rem(base, frag) == 0 && (OnTable(bits, frag, 0, ndblk, k) <==> on && OnTable(bits, frag, base, ndblk, k))
      invariant Filling(bits, frag, base, ndblk, k, t)
    {
      var free := CountSet(bits, base, base + frag);
      CountAll(bits, base, base + frag);
      BlockStep(bits, frag, base, ndblk);
      OnTableStep(bits, frag, base, ndblk, k);
      FillingStep(bits, frag, base, ndblk, k, t);
      WindowRuns(bits, base, base + frag);
      tame := tame && (free == frag || !LongRun(bits[base..base + frag], frag));
      NothingAccounted(bits, base, base + frag, frsum);
      ghost var before := frsum;
      on := on && (free == frag ==> Cylinder(k, base) < MAXCPG);
      if free == frag {
        NotedMatches(t, k, base);
        nbfree := nbfree + 1;
        t := Noted(t, k, base);
      } else if free > 0 {
        nffree := nffree + free;
        frsum := AccountRuns(bits[base..base + frag], frsum);
      }
      RunsStep(bits, frag, base, ndblk, before, frsum);
      base := base + frag;
    }
    ghost var before := frsum;
    TailStep(bits, frag, base, ndblk);
    FillingEnds(bits, frag, base, ndblk, k, t);
    if base < ndblk {
      var free := CountSet(bits, base, ndblk);
      WindowRuns(bits, base, ndblk);
      NothingAccounted(bits, base, ndblk, frsum);
      if free > 0 {
        nffree := nffree + free;
        frsum := AccountRuns(bits[base..ndblk], frsum);
      }
    }
    RunsTail(bits, frag, base, ndblk, before, frsum);
  }

  /** What the table lacks is what the blocks from `base` on will add. */
  ghost predicate Filling(bits: seq<bool>, frag: nat, base: nat, limit: nat, k: Disk, t: Tables)
    requires 0 < frag && limit <= |bits|
  {
    && TablesShape(t)
    && forall i | 0 <= i < MAXCPG * NRPOS ::
         t.bpos[i] + FreeAt(bits, frag, base, limit, k, i) == FreeAt(bits, frag, 0, limit, k, i)
  }

  lemma FillingStarts(bits: seq<bool>, frag: nat, limit: nat, k: Disk)
    requires 0 < frag && limit <= |bits|
    ensures Rem(0, frag) == 0 && Filling(bits, frag, 0, limit, k, NoTables())
  {
    hide FreeAt;
    Decompose(0, 0, frag);
    MulZero(frag);
  }

  lemma FillingStep(bits: seq<bool>, frag: nat, base: nat, limit: nat, k: Disk, t: Tables)
    requires 0 < frag && base + frag <= limit <= |bits| && Filling(bits, frag, base, limit, k, t)
    ensures Filling(bits, frag, base + frag, limit, k, if AllFree(bits, base, frag) then Noted(t, k, base) else t)
  {
    hide Noted, Spot, AllFree;
    NotedSpots(t, k, base);
    forall i | 0 <= i < MAXCPG * NRPOS
      ensures FreeAt(bits, frag, base, limit, k, i) ==
                One(AllFree(bits, base, frag) && Spot(k, base) == i) + FreeAt(bits, frag, base + frag, limit, k, i)
    {
    }
  }

  lemma FillingEnds(bits: seq<bool>, frag: nat, base: nat, limit: nat, k: Disk, t: Tables)
    requires 0 < frag && base <= limit < base + frag && limit <= |bits| && Filling(bits, frag, base, limit, k, t) && RowsMatch(t)
    ensures Tabled(bits, frag, limit, k, t) && OnTable(bits, frag, base, limit, k)
  {
    hide Rem, Cylinder, RowsMatch;
    forall i | 0 <= i < MAXCPG * NRPOS ensures FreeAt(bits, frag, base, limit, k, i) == 0 { }
  }

  /** A block of sixteen fragments, the first eight free: the run table does not see them. */
  method DroppedRun(k: Disk) returns (nffree: nat, frsum: seq<nat>)
    ensures nffree == 8 && |frsum| == MAXFRAG && Weighted(frsum) < nffree
  {
    hide Weighted, Tabled, OnTable, Sum, RunsIn;
    var bits := seq(16, i => i < 8);
    EightOfSixteen(bits);
    var nbfree, t;
    nbfree, nffree, frsum, t := SummarizeBlocks(bits, 16, 16, k);
  }

  /** 33 blocks of eight fragments on cylinders of eight sectors, the last block free: the table does not see it. */
  method MissedBlock() returns (nbfree: nat, t: Tables)
    ensures nbfree == 1 && Sum(t.btot) == 0
  {
    hide Weighted, Tabled, RunsTabled, OnTable, Sum, FreeBlocks, Loose, Tame;
    var bits := seq(264, i => i >= 256);
    LastOf33(bits);
    var nffree, frsum;
    nbfree, nffree, frsum, t := SummarizeBlocks(bits, 8, 264, Disk(8, 8, 1));
  }

  lemma LastOf33(bits: seq<bool>)
    requires |bits| == 264 && forall i | 0 <= i < 264 :: bits[i] <==> i >= 256
    ensures FreeBlocks(bits, 8, 0, 264) == 1 && !OnTable(bits, 8, 0, 264, Disk(8, 8, 1))
  {
    hide Rem, Mul, Quot, FreeBlocks;
    TakenBelow(bits, 0);
    OneFree(bits);
    MulIsProduct(32, 8);
    Decompose(32, 0, 8);
    MulIsProduct(256, 1);
    assert AllFree(bits, 256, 8) && Cylinder(Disk(8, 8, 1), 256) == 32;
  }

  lemma OneFree(bits: seq<bool>)
    requires |bits| == 264 && AllFree(bits, 256, 8)
    ensures FreeBlocks(bits, 8, 256, 264) == 1
  {
    assert FreeBlocks(bits, 8, 264, 264) == 0;
  }

  lemma {:induction false} TakenBelow(bits: seq<bool>, loc: nat)
    requires |bits| == 264 && loc <= 256 && loc % 8 == 0 && forall i | 0 <= i < 256 :: !bits[i]
    ensures FreeBlocks(bits, 8, loc, 264) == FreeBlocks(bits, 8, 256, 264)
    decreases 256 - loc
  {
    if loc < 256 {
      assert !bits[loc];
      TakenBelow(bits, loc + 8);
    }
  }

  lemma EightOfSixteen(bits: seq<bool>)
    requires |bits| == 16 && forall i | 0 <= i < 16 :: bits[i] <==> i < 8
    ensures Loose(bits, 16, 0, 16) == 8 && !Tame(bits, 16, 0, 16)
  {
    CountSplit(bits, 0, 8, 16);
    CountAll(bits, 0, 8);
    CountAll(bits, 8, 16);
    assert !bits[8];
    assert bits[0..16] == bits;
    assert AllFree(bits[0..16], 0, MAXFRAG);
  }

  lemma WeightedZeros()
    ensures Weighted(seq(MAXFRAG, _ => 0)) == 0
  {
    ZerosWeigh(MAXFRAG);
  }

  lemma {:induction false} ZerosWeigh(n: nat)
    ensures Weighted(seq(n, _ => 0)) == 0
    decreases n
  {
    if n != 0 {
      var z: seq<nat> := seq(n, _ => 0);
      assert z[..n - 1] == seq(n - 1, _ => 0);
      ZerosWeigh(n - 1);
      MulIsProduct(n - 1, 0);
    }
  }

  lemma BlockStep(bits: seq<bool>, frag: nat, base: nat, limit: nat)
    requires 0 < frag && base + frag <= limit <= |bits|
    ensures FreeBlocks(bits, frag, base, limit) == One(AllFree(bits, base, frag)) + FreeBlocks(bits, frag, base + frag, limit)
    ensures Loose(bits, frag, base, limit) ==
              (if AllFree(bits, base, frag) then 0 else CountSet(bits, base, base + frag)) + Loose(bits, frag, base + frag, limit)
    ensures Tame(bits, frag, base, limit) <==>
              (AllFree(bits, base, frag) || !LongRun(bits[base..base + frag], frag)) && Tame(bits, frag, base + frag, limit)
  {
  }

  lemma TailStep(bits: seq<bool>, frag: nat, base: nat, limit: nat)
    requires 0 < frag && base <= limit < base + frag && limit <= |bits|
    ensures FreeBlocks(bits, frag, base, limit) == 0 && Loose(bits, frag, base, limit) == CountSet(bits, base, limit)
    ensures base == limit ==> Loose(bits, frag, base, limit) == 0
    ensures Tame(bits, frag, base, limit) <==> base == limit || !LongRun(bits[base..limit], limit - base)
  {
  }

  /** A window that is not wholly free, or shorter than the table, has no run the table cannot hold. */
  lemma WindowRuns(bits: seq<bool>, lo: nat, hi: nat)
    requires lo <= hi <= |bits|
    ensures CountSet(bits[lo..hi], 0, hi - lo) == CountSet(bits, lo, hi)
    ensures hi - lo < MAXFRAG || (hi - lo == MAXFRAG && !AllFree(bits, lo, MAXFRAG)) ==> !LongRun(bits[lo..hi], hi - lo)
    ensures CountSet(bits, lo, hi) == 0 ==> !LongRun(bits[lo..hi], hi - lo)
  {
    WindowCount(bits, lo, hi, hi - lo);
    var w := bits[lo..hi];
    CountAll(w, 0, hi - lo);
    if LongRun(w, hi - lo) {
      var j: nat :| j + MAXFRAG <= hi - lo && AllFree(w, j, MAXFRAG);
      assert w[j];
    }
    if hi - lo == MAXFRAG && LongRun(w, hi - lo) {
      var j: nat :| j + MAXFRAG <= hi - lo && AllFree(w, j, MAXFRAG);
      assert forall i | lo <= i < lo + MAXFRAG :: bits[i] == w[i - lo];
    }
  }

  lemma {:induction false} WindowCount(bits: seq<bool>, lo: nat, hi: nat, k: nat)
    requires lo <= hi <= |bits| && k <= hi - lo
    ensures CountSet(bits[lo..hi], 0, k) == CountSet(bits, lo, lo + k)
    decreases k
  {
    if k != 0 { WindowCount(bits, lo, hi, k - 1); }
  }

  // --- counting inodes -------------------------------------------------------

  /** The used map with the two reserved inodes of the first group taken as used. */
  function Reserved(iused: seq<bool>, cg: nat): (r: seq<bool>)
    requires 2 <= |iused|
    ensures |r| == |iused|
  {
    if cg == 0 then iused[0 := true][1 := true] else iused
  }

  /** The inode half of `expected_cg_header`. */
  method SummarizeInodes(vol: Volume, cg: nat) returns (ndir: nat, nifree: nat)
    requires Shape(vol.View()) && cg < vol.g.ncg
    ensures Mul(cg, vol.g.ipg) + vol.g.ipg <= |vol.inodes|
    ensures ndir == DirCount(vol.cgs[cg].iused, vol.inodes, Mul(cg, vol.g.ipg), vol.g.ipg)
    ensures nifree == Clear(Reserved(vol.cgs[cg].iused, cg), vol.g.ipg)
  {
    hide Mul;
    var ipg, base := vol.g.ipg, Mul(cg, vol.g.ipg);
    GroupRange(vol.g, cg);
    var iused := vol.cgs[cg].iused;
    ghost var bits := Reserved(iused, cg);
    ndir := 0;
    var free: int := ipg;
    if cg == 0 {
      MulZero(ipg);
      free := free - 2;
    } else {
      MulLess(0, cg, ipg);
      MulZero(ipg);
    }
    for i := 0 to ipg
      invariant ndir == DirCount(iused, vol.inodes, base, i)
      invariant free == ipg - Max(if cg == 0 then 2 else 0, i - Clear(bits, i))
    {
      if cg == 0 && i < 2 {
        assert bits[i] && (i == 1 ==> Clear(bits, 1) == 0);
        continue;
      }
      ClearLow(bits, cg, i);
      if !iused[i] {
        continue;
      }
      free := free - 1;
      if vol.inodes[base + i].kind == Directory {
        ndir := ndir + 1;
      }
    }
    ClearLow(bits, cg, ipg);
    ClearBound(bits, ipg);
    nifree := free;
  }

  /** Past the reserved inodes, at least those two are used. */
  lemma {:induction false} ClearLow(bits: seq<bool>, cg: nat, i: nat)
    requires i <= |bits| && (cg == 0 ==> 2 <= i && bits[0] && bits[1])
    ensures cg == 0 ==> i - Clear(bits, i) >= 2
    ensures Clear(bits, i) <= i
    decreases i
  {
    if cg == 0 && i > 2 { ClearLow(bits, cg, i - 1); }
    ClearBound(bits, i);
    if i == 2 { assert Clear(bits, 1) == Clear(bits, 0) + (if bits[0] then 0 else 1); }
  }
}
