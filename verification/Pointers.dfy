/**
 Indirect pointer trees: how a list of data blocks is laid out behind an inode's
 indirect roots, and the walks that read it back. Pointer 0 means "no block".
 */
module Pointers {
  import opened Arith
  import opened Geometry
  import opened Codec
  import opened VolumeState
  import opened Alloc

  /** The `nindir` pointers stored in block `b`. */
  ghost function ReadPtrs(g: Geometry, img: seq<byte>, b: nat): seq<nat> {
    var raw := Region(g, img, b);
    if |raw| < 4 * g.nindir then [] else seq(g.nindir, i requires 0 <= i < g.nindir => U32At(raw, 4 * i))
  }

  /** Data blocks reachable through the tree rooted at `b`, in order. */
  ghost function Leaves(g: Geometry, img: seq<byte>, b: nat, levels: nat): seq<nat>
    decreases levels, 1, 0
  {
    if b == 0 || levels == 0 then [] else LeavesOf(g, img, ReadPtrs(g, img, b), levels)
  }

  ghost function LeavesOf(g: Geometry, img: seq<byte>, ps: seq<nat>, levels: nat): seq<nat>
    requires 0 < levels
    decreases levels, 0, |ps|
  {
    if ps == [] then [] else
      LeavesOf(g, img, ps[..|ps| - 1], levels) + Under(g, img, ps[|ps| - 1], levels)
  }

  /** What one pointer of a `levels`-deep block contributes. */
  ghost function Under(g: Geometry, img: seq<byte>, p: nat, levels: nat): seq<nat>
    requires 0 < levels
    decreases levels, 0, 0
  {
    if levels == 1 then (if p == 0 then [] else [p]) else Leaves(g, img, p, levels - 1)
  }

  /** Pointer blocks of the tree rooted at `b`, root first. */
  ghost function Inner(g: Geometry, img: seq<byte>, b: nat, levels: nat): seq<nat>
    decreases levels, 1, 0
  {
    if b == 0 || levels == 0 then [] else [b] + InnerOf(g, img, if levels == 1 then [] else ReadPtrs(g, img, b), levels)
  }

  ghost function InnerOf(g: Geometry, img: seq<byte>, ps: seq<nat>, levels: nat): seq<nat>
    requires 0 < levels
    decreases levels, 0, |ps|
  {
    if ps == [] then [] else
      InnerOf(g, img, ps[..|ps| - 1], levels) + Inner(g, img, ps[|ps| - 1], levels - 1)
  }

  /** The block that entry `k` of a tree leads to, one digit of `k` per level; 0 for none. */
  ghost function EntryOf(g: Geometry, img: seq<byte>, b: nat, levels: nat, k: nat): nat
    decreases levels
  {
    if b == 0 || levels == 0 then b
    else
      var width, ps := Reach(g.nindir, levels - 1), ReadPtrs(g, img, b);
      if width == 0 || |ps| <= Quot(k, width) then 0 else EntryOf(g, img, ps[Quot(k, width)], levels - 1, Rem(k, width))
  }

  /** Entry `k` of the tree is its `k`-th block: no gaps, every pointer block but the last full. */
  ghost predicate Dense(g: Geometry, img: seq<byte>, root: nat, levels: nat, blocks: seq<nat>) {
    forall k | 0 <= k < |blocks| :: EntryOf(g, img, root, levels, k) == blocks[k]
  }

  /** The same for the trees below a row of pointers. */
  ghost predicate DenseRow(g: Geometry, img: seq<byte>, roots: seq<nat>, levels: nat, blocks: seq<nat>)
    requires 0 < levels
  {
    var width := Reach(g.nindir, levels - 1);
    forall k | 0 <= k < |blocks| ::
      0 < width && Quot(k, width) < |roots| && EntryOf(g, img, roots[Quot(k, width)], levels - 1, Rem(k, width)) == blocks[k]
  }

  ghost predicate NoDup(s: seq<nat>) {
    forall i, j | 0 <= i < j < |s| :: s[i] != s[j]
  }

  ghost function Elems(s: seq<nat>): set<nat> { set x | x in s }

  // --- frames ----------------------------------------------------------------

  ghost predicate SameAt(g: Geometry, img: seq<byte>, img': seq<byte>, bs: seq<nat>) {
    forall b | b in bs :: Region(g, img', b) == Region(g, img, b)
  }

  /** A tree depends only on the bytes of its own pointer blocks. */
  lemma {:induction false} TreeFrame(g: Geometry, img: seq<byte>, img': seq<byte>, b: nat, levels: nat)
    requires SameAt(g, img, img', Inner(g, img, b, levels))
    ensures Leaves(g, img', b, levels) == Leaves(g, img, b, levels)
    ensures Inner(g, img', b, levels) == Inner(g, img, b, levels)
    decreases levels, 1, 0
  {
    if b != 0 && levels != 0 {
      assert b in Inner(g, img, b, levels);
      var ps := ReadPtrs(g, img, b);
      assert ReadPtrs(g, img', b) == ps;
      if levels == 1 { LeafFrame(g, img, img', ps); } else { ForestFrame(g, img, img', ps, levels); }
    }
  }

  lemma {:induction false} LeafFrame(g: Geometry, img: seq<byte>, img': seq<byte>, ps: seq<nat>)
    ensures LeavesOf(g, img', ps, 1) == LeavesOf(g, img, ps, 1)
    decreases |ps|
  {
    if ps != [] { LeafFrame(g, img, img', ps[..|ps| - 1]); }
  }

  lemma {:induction false} ForestFrame(g: Geometry, img: seq<byte>, img': seq<byte>, ps: seq<nat>, levels: nat)
    requires 1 < levels && SameAt(g, img, img', InnerOf(g, img, ps, levels))
    ensures LeavesOf(g, img', ps, levels) == LeavesOf(g, img, ps, levels)
    ensures InnerOf(g, img', ps, levels) == InnerOf(g, img, ps, levels)
    decreases levels, 0, |ps|
  {
    if ps != [] {
      var last, rest := ps[|ps| - 1], ps[..|ps| - 1];
      assert InnerOf(g, img, ps, levels) == InnerOf(g, img, rest, levels) + Inner(g, img, last, levels - 1);
      ForestFrame(g, img, img', rest, levels);
      TreeFrame(g, img, img', last, levels - 1);
    }
  }

  lemma {:induction false} InnerHas(g: Geometry, img: seq<byte>, ps: seq<nat>, levels: nat, i: nat, x: nat)
    requires 0 < levels && i < |ps| && x in Inner(g, img, ps[i], levels - 1)
    ensures x in InnerOf(g, img, ps, levels)
    decreases |ps|
  {
    if i < |ps| - 1 { InnerHas(g, img, ps[..|ps| - 1], levels, i, x); }
  }

  /** Where an entry leads depends only on the tree's own pointer blocks. */
  lemma {:induction false} EntryFrame(g: Geometry, img: seq<byte>, img': seq<byte>, b: nat, levels: nat, k: nat)
    requires SameAt(g, img, img', Inner(g, img, b, levels))
    ensures EntryOf(g, img', b, levels, k) == EntryOf(g, img, b, levels, k)
    decreases levels
  {
    hide Region;
    if b != 0 && levels != 0 {
      var width, ps := Reach(g.nindir, levels - 1), ReadPtrs(g, img, b);
      assert b in Inner(g, img, b, levels);
      SamePtrs(g, img, img', b);
      if 0 < width && Quot(k, width) < |ps| {
        ChildFrame(g, img, img', b, levels, Quot(k, width));
        EntryFrame(g, img, img', ps[Quot(k, width)], levels - 1, Rem(k, width));
      }
    }
  }

  lemma SamePtrs(g: Geometry, img: seq<byte>, img': seq<byte>, b: nat)
    requires Region(g, img', b) == Region(g, img, b)
    ensures ReadPtrs(g, img', b) == ReadPtrs(g, img, b)
  {
  }

  lemma ChildFrame(g: Geometry, img: seq<byte>, img': seq<byte>, b: nat, levels: nat, i: nat)
    requires b != 0 && 0 < levels && SameAt(g, img, img', Inner(g, img, b, levels)) && i < |ReadPtrs(g, img, b)|
    ensures SameAt(g, img, img', Inner(g, img, ReadPtrs(g, img, b)[i], levels - 1))
  {
    hide Region;
    var ps := ReadPtrs(g, img, b);
    if levels > 1 {
      forall x | x in Inner(g, img, ps[i], levels - 1) ensures Region(g, img', x) == Region(g, img, x) {
        InnerHas(g, img, ps, levels, i, x);
      }
    }
  }

  lemma DenseFrame(g: Geometry, img: seq<byte>, img': seq<byte>, root: nat, levels: nat, blocks: seq<nat>)
    requires Dense(g, img, root, levels, blocks) && SameAt(g, img, img', Inner(g, img, root, levels))
    ensures Dense(g, img', root, levels, blocks)
  {
    hide EntryOf, Inner;
    forall k | 0 <= k < |blocks| ensures EntryOf(g, img', root, levels, k) == blocks[k] { EntryFrame(g, img, img', root, levels, k); }
  }

  lemma DenseRowFrame(g: Geometry, img: seq<byte>, img': seq<byte>, roots: seq<nat>, levels: nat, blocks: seq<nat>)
    requires 0 < levels && DenseRow(g, img, roots, levels, blocks) && SameAt(g, img, img', InnerOf(g, img, roots, levels))
    ensures DenseRow(g, img', roots, levels, blocks)
  {
    hide EntryOf, Inner, InnerOf, Reach, Quot, Rem, Region;
    var width := Reach(g.nindir, levels - 1);
    forall k | 0 <= k < |blocks|
      ensures 0 < width && Quot(k, width) < |roots| && EntryOf(g, img', roots[Quot(k, width)], levels - 1, Rem(k, width)) == blocks[k]
    {
      var i := Quot(k, width);
      forall x | x in Inner(g, img, roots[i], levels - 1) ensures Region(g, img', x) == Region(g, img, x) {
        InnerHas(g, img, roots, levels, i, x);
      }
      EntryFrame(g, img, img', roots[i], levels - 1, Rem(k, width));
    }
  }

  /** Trailing zero pointers add nothing. */
  lemma {:induction false} PaddingIsEmpty(g: Geometry, img: seq<byte>, ps: seq<nat>, k: nat, levels: nat)
    requires 0 < levels && k <= |ps| && forall i | k <= i < |ps| :: ps[i] == 0
    ensures LeavesOf(g, img, ps, levels) == LeavesOf(g, img, ps[..k], levels)
    ensures InnerOf(g, img, ps, levels) == InnerOf(g, img, ps[..k], levels)
    decreases |ps|
  {
    if k == |ps| {
      assert ps[..k] == ps;
    } else {
      var rest := ps[..|ps| - 1];
      PaddingIsEmpty(g, img, rest, k, levels);
      assert rest[..k] == ps[..k];
      assert Under(g, img, 0, levels) == [] && Inner(g, img, 0, levels - 1) == [];
    }
  }

  /** A level-1 block lists its nonzero pointers themselves. */
  lemma {:induction false} LeavesOfLevelOne(g: Geometry, img: seq<byte>, ps: seq<nat>)
    requires forall i | 0 <= i < |ps| :: ps[i] != 0
    ensures LeavesOf(g, img, ps, 1) == ps
    decreases |ps|
  {
    if ps != [] {
      LeavesOfLevelOne(g, img, ps[..|ps| - 1]);
      assert ps == ps[..|ps| - 1] + [ps[|ps| - 1]];
    }
  }

  // --- construction ----------------------------------------------------------

  /** New pointer blocks `ps` for `ino`; nothing else was claimed or overwritten. */
  ghost predicate Grown(v: Vol, w: Vol, ino: nat, ps: seq<nat>) {
    && ValidGeometry(v.g) && InodeSideSame(v, w) && NoDup(ps)
    && (forall p | p in ps :: p !in v.own && GoodBlock(v.g, p))
    && w.own == v.own + (map p | p in ps :: Claim(ino, v.g.frag))
    && SameExcept(v.g, v.img, w.img, Elems(ps))
  }

  lemma GrownNothing(v: Vol, ino: nat)
    requires ValidGeometry(v.g)
    ensures Grown(v, v, ino, [])
  {
    assert v.own + (map p | p in [] :: Claim(ino, v.g.frag)) == v.own;
  }

  lemma SideTransitive(u: Vol, v: Vol, w: Vol)
    requires InodeSideSame(u, v) && InodeSideSame(v, w)
    ensures InodeSideSame(u, w)
  {
  }

  lemma SameTransitive(g: Geometry, a: seq<byte>, b: seq<byte>, c: seq<byte>, s: set<nat>, t: set<nat>)
    requires ValidGeometry(g) && SameExcept(g, a, b, s) && SameExcept(g, b, c, t)
    ensures SameExcept(g, a, c, s + t)
  {
  }

  lemma GrownMore(u: Vol, v: Vol, w: Vol, ino: nat, ps: seq<nat>, qs: seq<nat>)
    requires Grown(u, v, ino, ps) && Grown(v, w, ino, qs)
    ensures Grown(u, w, ino, ps + qs)
  {
    hide ValidGeometry, GoodBlock, SameExcept, InodeSideSame;
    var both := ps + qs;
    SideTransitive(u, v, w);
    assert u.g == v.g by { SideGeometry(u, v); }
    ClaimsConcat(u.own, v.own, w.own, ps, qs, Claim(ino, u.g.frag));
    NoDupConcat(ps, qs);
    SameTransitive(u.g, u.img, v.img, w.img, Elems(ps), Elems(qs));
    assert Elems(both) == Elems(ps) + Elems(qs);
  }

  lemma ClaimsConcat(a: map<nat, Claim>, b: map<nat, Claim>, c: map<nat, Claim>, ps: seq<nat>, qs: seq<nat>, k: Claim)
    requires b == a + (map p | p in ps :: k) && c == b + (map p | p in qs :: k)
    requires forall p | p in qs :: p !in b
    ensures c == a + (map p | p in ps + qs :: k)
    ensures forall p | p in qs :: p !in ps && p !in a
  {
  }

  lemma NoDupConcat(ps: seq<nat>, qs: seq<nat>)
    requires NoDup(ps) && NoDup(qs) && forall q | q in qs :: q !in ps
    ensures NoDup(ps + qs)
  {
    forall i, j | 0 <= i < |ps| <= j < |ps + qs| ensures (ps + qs)[i] != (ps + qs)[j] {
      assert qs[j - |ps|] in qs;
    }
  }

  lemma SideGeometry(v: Vol, w: Vol)
    requires InodeSideSame(v, w)
    ensures v.g == w.g && v.inodes == w.inodes && |v.cgs| == |w.cgs|
  {
  }

  /** The pointer block written for `ps`: `nindir` slots, zero past the end. */
  ghost predicate HoldsPtrs(g: Geometry, img: seq<byte>, b: nat, ps: seq<nat>) {
    |ReadPtrs(g, img, b)| == g.nindir && |ps| <= g.nindir
    && ReadPtrs(g, img, b)[..|ps|] == ps && forall i | |ps| <= i < g.nindir :: ReadPtrs(g, img, b)[i] == 0
  }

  /** `write_pointer_block`. */
  method WritePointerBlock(vol: Volume, b: nat, ps: seq<nat>)
    requires ValidGeometry(vol.g) && vol.image.Length == Mul(vol.g.dsize, vol.g.fsize)
    requires GoodBlock(vol.g, b) && |ps| <= vol.g.nindir && forall i | 0 <= i < |ps| :: ps[i] < U32
    modifies vol.image
    ensures SameExcept(vol.g, old(vol.image[..]), vol.image[..], {b})
    ensures HoldsPtrs(vol.g, vol.image[..], b, ps)
  {
    var raw := EncodePtrs(vol.g, ps);
    vol.CopyIn(b, 0, raw);
    assert Region(vol.g, vol.image[..], b) == raw;
  }

  /** One block of little-endian pointers, zero-filled past the end of `ps`. */
  method EncodePtrs(g: Geometry, ps: seq<nat>) returns (raw: seq<byte>)
    requires |ps| <= g.nindir && 4 * g.nindir <= g.bsize && forall i | 0 <= i < |ps| :: ps[i] < U32
    ensures |raw| == g.bsize
    ensures forall j | 0 <= j < g.nindir :: U32At(raw, 4 * j) == if j < |ps| then ps[j] else 0
  {
    hide PutU32, U32At;
    raw := Zeros(g.bsize);
    forall j | 0 <= j < g.nindir ensures U32At(raw, 4 * j) == 0 { ZeroSlot(g.bsize, j); }
    for i := 0 to |ps|
      invariant |raw| == g.bsize
      invariant forall j | 0 <= j < i :: U32At(raw, 4 * j) == ps[j]
      invariant forall j | i <= j < g.nindir :: U32At(raw, 4 * j) == 0
    {
      ghost var before := raw;
      raw := PutU32(raw, 4 * i, ps[i]);
      forall j | 0 <= j < g.nindir && j != i ensures U32At(raw, 4 * j) == U32At(before, 4 * j) {
        OtherSlot(before, i, j, ps[i]);
      }
    }
  }

  lemma ZeroSlot(n: nat, j: nat)
    requires 4 * j + 4 <= n
    ensures U32At(Zeros(n), 4 * j) == 0
  {
  }

  /** The tree rooted at `root` lists exactly `blocks`, through pointer blocks `ps`. */
  ghost predicate TreeAt(g: Geometry, img: seq<byte>, root: nat, levels: nat, blocks: seq<nat>, ps: seq<nat>) {
    && 0 < root < U32 && Leaves(g, img, root, levels) == blocks && Inner(g, img, root, levels) == ps
    && Dense(g, img, root, levels, blocks)
  }

  ghost predicate ForestAt(g: Geometry, img: seq<byte>, roots: seq<nat>, levels: nat, blocks: seq<nat>, ps: seq<nat>) {
    && 0 < levels && (forall i | 0 <= i < |roots| :: 0 < roots[i] < U32)
    && LeavesOf(g, img, roots, levels) == blocks && InnerOf(g, img, roots, levels) == ps
    && DenseRow(g, img, roots, levels, blocks)
  }

  ghost predicate Numbers(bs: seq<nat>) {
    forall i | 0 <= i < |bs| :: 0 < bs[i] < U32
  }

  /** Growing by fresh blocks leaves a forest on owned blocks as it was. */
  lemma ForestKept(v: Vol, w: Vol, ino: nat, qs: seq<nat>, roots: seq<nat>, levels: nat, blocks: seq<nat>, ps: seq<nat>)
    requires Grown(v, w, ino, qs) && OwnOk(v.g, v.own)
    requires 1 < levels && ForestAt(v.g, v.img, roots, levels, blocks, ps) && forall p | p in ps :: p in v.own
    ensures ForestAt(w.g, w.img, roots, levels, blocks, ps)
  {
    hide ValidGeometry, GoodBlock, Leaves, Inner, LeavesOf, InnerOf, Region, DenseRow;
    forall b | b in ps ensures Region(v.g, w.img, b) == Region(v.g, v.img, b) {
      assert b !in Elems(qs);
    }
    ForestFrame(v.g, v.img, w.img, roots, levels);
    DenseRowFrame(v.g, v.img, w.img, roots, levels, blocks);
  }

  /** Adding one more child tree to the forest. */
  lemma ForestPush(g: Geometry, img: seq<byte>, roots: seq<nat>, levels: nat, blocks: seq<nat>, ps: seq<nat>,
                   root: nat, more: seq<nat>, qs: seq<nat>)
    requires 1 < levels && ForestAt(g, img, roots, levels, blocks, ps) && TreeAt(g, img, root, levels - 1, more, qs)
    requires |blocks| == Mul(|roots|, Reach(g.nindir, levels - 1)) && |more| <= Reach(g.nindir, levels - 1)
    ensures ForestAt(g, img, roots + [root], levels, blocks + more, ps + qs)
  {
    hide Dense, DenseRow, Reach, Mul;
    var both := roots + [root];
    assert both[..|roots|] == roots && both[|roots|] == root;
    RowPush(g, img, roots, levels, blocks, root, more);
    assert LeavesOf(g, img, both, levels) == blocks + more;
    assert InnerOf(g, img, both, levels) == ps + qs;
  }

  lemma RowPush(g: Geometry, img: seq<byte>, roots: seq<nat>, levels: nat, blocks: seq<nat>, root: nat, more: seq<nat>)
    requires 1 < levels && DenseRow(g, img, roots, levels, blocks) && Dense(g, img, root, levels - 1, more)
    requires |blocks| == Mul(|roots|, Reach(g.nindir, levels - 1)) && |more| <= Reach(g.nindir, levels - 1)
    ensures DenseRow(g, img, roots + [root], levels, blocks + more)
  {
    hide EntryOf, Reach, Mul, Quot, Rem;
    var width, both, all := Reach(g.nindir, levels - 1), roots + [root], blocks + more;
    forall k | 0 <= k < |all|
      ensures 0 < width && Quot(k, width) < |both| && EntryOf(g, img, both[Quot(k, width)], levels - 1, Rem(k, width)) == all[k]
    {
      if |blocks| <= k { Decompose(|roots|, k - |blocks|, width); }
    }
  }

  lemma TreeDense(g: Geometry, img: seq<byte>, root: nat, levels: nat, roots: seq<nat>, blocks: seq<nat>)
    requires 0 < root && 0 < levels && HoldsPtrs(g, img, root, roots) && DenseRow(g, img, roots, levels, blocks)
    ensures Dense(g, img, root, levels, blocks)
  {
    hide Reach, Quot, Rem, ReadPtrs;
  }

  lemma LeafDense(g: Geometry, img: seq<byte>, blocks: seq<nat>)
    requires 0 < g.nindir
    ensures DenseRow(g, img, blocks, 1, blocks)
  {
    forall k | 0 <= k < |blocks| ensures Quot(k, 1) == k && Rem(k, 1) == 0 { QuotIsDivision(k, 1); }
  }

  /** A fresh root block over the forest completes the tree. */
  lemma TreeSealed(g: Geometry, img: seq<byte>, root: nat, levels: nat, roots: seq<nat>, blocks: seq<nat>, ps: seq<nat>)
    requires 0 < root < U32 && HoldsPtrs(g, img, root, roots) && |roots| <= g.nindir
    requires 1 < levels && ForestAt(g, img, roots, levels, blocks, ps)
    ensures TreeAt(g, img, root, levels, blocks, [root] + ps)
  {
    hide Dense, DenseRow;
    PaddingIsEmpty(g, img, ReadPtrs(g, img, root), |roots|, levels);
    TreeDense(g, img, root, levels, roots, blocks);
  }

  lemma LeafSealed(g: Geometry, img: seq<byte>, root: nat, blocks: seq<nat>)
    requires 0 < root < U32 && HoldsPtrs(g, img, root, blocks) && Numbers(blocks) && 0 < g.nindir
    ensures TreeAt(g, img, root, 1, blocks, [root])
  {
    hide Dense, DenseRow;
    LeafDense(g, img, blocks);
    TreeDense(g, img, root, 1, blocks, blocks);
    PaddingIsEmpty(g, img, ReadPtrs(g, img, root), |blocks|, 1);
    LeavesOfLevelOne(g, img, blocks);
  }

  /** Allocates a pointer block for `ino` and stores `ps` in it. */
  method NewPointerBlock(vol: Volume, ino: nat, ps: seq<nat>) returns (r: Result<nat>)
    requires BlocksOk(vol.View()) && ino < |vol.inodes| && |ps| <= vol.g.nindir && forall i | 0 <= i < |ps| :: ps[i] < U32
    modifies vol, vol.image
    ensures r.Ok? ==> BlocksOk(vol.View()) && Grown(old(vol.View()), vol.View(), ino, [r.value])
    ensures r.Ok? ==> HoldsPtrs(vol.g, vol.image[..], r.value, ps) && 0 < r.value < U32
    ensures r.Err? ==> NoSpace(vol.g, vol.own)
  {
    hide BlocksOk, HoldsPtrs, NoSpace;
    ghost var u := vol.View();
    BlocksShape(u);
    r := vol.AllocateRun(ino, vol.g.frag);
    if r.Ok? {
      ghost var v := vol.View();
      BlocksShape(v);
      GoodBlockBounds(vol.g, r.value);
      WritePointerBlock(vol, r.value, ps);
      ImageIrrelevant(v, vol.View());
      GrownOne(u, v, vol.View(), ino, r.value);
    }
  }

  lemma GrownOne(u: Vol, v: Vol, w: Vol, ino: nat, b: nat)
    requires Allocated(u, v, b, Claim(ino, u.g.frag)) && w == v.(img := w.img) && SameExcept(v.g, v.img, w.img, {b})
    ensures Grown(u, w, ino, [b])
  {
    hide ValidGeometry, GoodBlock, Region;
    assert Elems([b]) == {b};
    assert u.own[b := Claim(ino, u.g.frag)] == u.own + (map p | p in [b] :: Claim(ino, u.g.frag));
  }

  /** Pointer blocks in a tree of the given depth over `k` blocks, and in a row of such trees. */
  ghost function TreeCount(n: nat, levels: nat, k: nat): nat
    decreases levels, 0, 0
  {
    if levels == 0 || k == 0 then 0 else if levels == 1 then 1 else 1 + ForestCount(n, levels - 1, k)
  }

  ghost function ForestCount(n: nat, levels: nat, k: nat): nat
    decreases levels, 1, k
  {
    var c := Reach(n, levels);
    if c == 0 || k <= c then TreeCount(n, levels, k) else TreeCount(n, levels, c) + ForestCount(n, levels, k - c)
  }

  lemma ForestStep(n: nat, levels: nat, k: nat)
    requires 0 < Reach(n, levels) && 0 < k
    ensures var take := Min(k, Reach(n, levels));
      ForestCount(n, levels, k) == TreeCount(n, levels, take) + ForestCount(n, levels, k - take)
  {
  }

  /** `build_pointer_tree`: the root and the number of pointer blocks allocated. */
  method BuildTree(vol: Volume, ino: nat, levels: nat, blocks: seq<nat>)
    returns (r: Result<(nat, nat)>, ghost ps: seq<nat>)
    requires BlocksOk(vol.View()) && ino < |vol.inodes| && 0 < levels && Numbers(blocks)
    requires |blocks| <= Reach(vol.g.nindir, levels)
    modifies vol, vol.image
    ensures r.Ok? ==> BlocksOk(vol.View()) && Grown(old(vol.View()), vol.View(), ino, ps) && |ps| == r.value.1
    ensures r.Ok? ==> if blocks == [] then r.value == (0, 0) else TreeAt(vol.g, vol.image[..], r.value.0, levels, blocks, ps)
    ensures r.Ok? ==> r.value.1 == TreeCount(vol.g.nindir, levels, |blocks|)
    ensures r.Err? ==> blocks != [] && NoSpace(vol.g, vol.own)
    decreases levels, 1, 0
  {
    hide BlocksOk, Grown, HoldsPtrs, TreeAt, ForestAt, NoSpace;
    ps := [];
    ghost var u := vol.View();
    BlocksShape(u);
    if blocks == [] {
      GrownNothing(u, ino);
      return Ok((0, 0)), [];
    }
    if levels == 1 {
      MulIsProduct(vol.g.nindir, 1);
      var root := NewPointerBlock(vol, ino, blocks);
      if root.Err? { return Err, []; }
      LeafSealed(vol.g, vol.image[..], root.value, blocks);
      return Ok((root.value, 1)), [root.value];
    }
    var children, qs := BuildChildren(vol, ino, levels, blocks);
    if children.Err? { return Err, []; }
    ghost var v := vol.View();
    BlocksShape(v);
    GrownOwned(u, v, ino, qs);
    var root := SealTree(vol, ino, levels, children.value.0, blocks, qs);
    if root.Err? { return Err, []; }
    GrownMore(u, v, vol.View(), ino, qs, [root.value]);
    GrownReorder(u, vol.View(), ino, qs, root.value);
    return Ok((root.value, children.value.1 + 1)), [root.value] + qs;
  }

  lemma GrownOwned(u: Vol, w: Vol, ino: nat, ps: seq<nat>)
    requires Grown(u, w, ino, ps)
    ensures forall p | p in ps :: p !in u.own && p in w.own && w.own[p] == Claim(ino, u.g.frag)
    ensures w.g == u.g && w.inodes == u.inodes
  {
    hide ValidGeometry, GoodBlock, Region, SameExcept;
  }

  lemma GrownReorder(u: Vol, w: Vol, ino: nat, qs: seq<nat>, b: nat)
    requires Grown(u, w, ino, qs + [b])
    ensures Grown(u, w, ino, [b] + qs)
  {
    hide ValidGeometry, GoodBlock, Region, InodeSideSame;
    var s, t := qs + [b], [b] + qs;
    assert forall x :: x in s <==> x in t;
    assert Elems(s) == Elems(t);
    assert (map p | p in s :: Claim(ino, u.g.frag)) == (map p | p in t :: Claim(ino, u.g.frag));
    assert s[|qs|] == b;
    forall i, j | 0 <= i < j < |t| ensures t[i] != t[j] {
      assert s[j - 1] == t[j] && (i > 0 ==> s[i - 1] == t[i]);
    }
  }

  method SealTree(vol: Volume, ino: nat, levels: nat, roots: seq<nat>, ghost blocks: seq<nat>, ghost ps: seq<nat>)
    returns (r: Result<nat>)
    requires BlocksOk(vol.View()) && ino < |vol.inodes| && 1 < levels && |roots| <= vol.g.nindir
    requires ForestAt(vol.g, vol.image[..], roots, levels, blocks, ps) && forall p | p in ps :: p in vol.own
    modifies vol, vol.image
    ensures r.Ok? ==> BlocksOk(vol.View()) && Grown(old(vol.View()), vol.View(), ino, [r.value])
    ensures r.Ok? ==> TreeAt(vol.g, vol.image[..], r.value, levels, blocks, [r.value] + ps)
    ensures r.Err? ==> NoSpace(vol.g, vol.own)
  {
    hide BlocksOk, Grown, HoldsPtrs, TreeAt, LeavesOf, InnerOf, NoSpace;
    ghost var v := vol.View();
    BlocksShape(v);
    r := NewPointerBlock(vol, ino, roots);
    if r.Ok? {
      ForestKept(v, vol.View(), ino, [r.value], roots, levels, blocks, ps);
      TreeSealed(vol.g, vol.image[..], r.value, levels, roots, blocks, ps);
    }
  }

  method BuildChildren(vol: Volume, ino: nat, levels: nat, blocks: seq<nat>)
    returns (r: Result<(seq<nat>, nat)>, ghost ps: seq<nat>)
    requires BlocksOk(vol.View()) && ino < |vol.inodes| && 1 < levels && Numbers(blocks)
    requires |blocks| <= Reach(vol.g.nindir, levels)
    modifies vol, vol.image
    ensures r.Ok? ==> BlocksOk(vol.View()) && Grown(old(vol.View()), vol.View(), ino, ps) && |ps| == r.value.1
    ensures r.Ok? ==> |r.value.0| <= vol.g.nindir && ForestAt(vol.g, vol.image[..], r.value.0, levels, blocks, ps)
    ensures r.Ok? ==> r.value.1 == ForestCount(vol.g.nindir, levels - 1, |blocks|)
    ensures r.Err? ==> NoSpace(vol.g, vol.own)
    decreases levels, 0, 0
  {
    hide BlocksOk, Grown, TreeAt, ForestAt, ValidGeometry, OwnOk, GroupsOk, TreeCount, ForestCount, Reach, Mul, NoDup, Elems, NoSpace;
    ghost var u := vol.View();
    BlocksShape(u);
    GrownNothing(u, ino);
    EmptyForest(vol.g, vol.image[..], levels);
    var capacity := Reach(vol.g.nindir, levels - 1);
    ReachStep(vol.g.nindir, levels);
    MulZero(capacity);
    var roots: seq<nat>, total, done := [], 0, 0;
    ps := [];
    while done < |blocks|
      invariant done <= |blocks| && |roots| <= vol.g.nindir
      invariant done < |blocks| ==> done == Mul(|roots|, capacity)
      invariant BlocksOk(vol.View()) && Grown(u, vol.View(), ino, ps) && |ps| == total && |vol.inodes| == |u.inodes|
      invariant ForestAt(vol.g, vol.image[..], roots, levels, blocks[..done], ps)
      invariant total + ForestCount(vol.g.nindir, levels - 1, |blocks| - done) == ForestCount(vol.g.nindir, levels - 1, |blocks|)
    {
      ghost var v := vol.View();
      BlocksShape(v);
      var take := Min(|blocks| - done, capacity);
      RoomForChild(vol.g.nindir, capacity, |roots|, done, |blocks|);
      ForestStep(vol.g.nindir, levels - 1, |blocks| - done);
      var chunk := blocks[done..done + take];
      var child, qs := BuildTree(vol, ino, levels - 1, chunk);
      if child.Err? { return Err, ps; }
      assert |blocks[..done]| == done;
      AddChild(u, v, vol.View(), ino, ps, qs, roots, levels, blocks[..done], child.value.0, chunk);
      assert blocks[..done] + chunk == blocks[..done + take];
      MulSucc(|roots|, capacity);
      roots, total, done, ps := roots + [child.value.0], total + child.value.1, done + take, ps + qs;
    }
    assert blocks[..done] == blocks;
    NoForest(vol.g.nindir, levels - 1);
    return Ok((roots, total)), ps;
  }

  lemma ReachStep(n: nat, levels: nat)
    requires 0 < levels
    ensures Reach(n, levels) == Mul(n, Reach(n, levels - 1))
  {
  }

  lemma NoForest(n: nat, levels: nat)
    ensures ForestCount(n, levels, 0) == 0
  {
  }

  lemma EmptyForest(g: Geometry, img: seq<byte>, levels: nat)
    requires 0 < levels
    ensures ForestAt(g, img, [], levels, [], [])
  {
  }

  /** While blocks remain, the pointer block still has a free slot. */
  lemma RoomForChild(n: nat, capacity: nat, roots: nat, done: nat, total: nat)
    requires done == Mul(roots, capacity) && done < total <= Mul(n, capacity)
    ensures roots < n && 0 < capacity
  {
    if n <= roots { MulAdd(n, roots - n, capacity); }
    if capacity == 0 { MulIsProduct(n, 0); }
  }

  lemma AddChild(u: Vol, v: Vol, w: Vol, ino: nat, ps: seq<nat>, qs: seq<nat>, roots: seq<nat>, levels: nat,
                 blocks: seq<nat>, root: nat, chunk: seq<nat>)
    requires BlocksOk(v) && Grown(u, v, ino, ps) && Grown(v, w, ino, qs) && 1 < levels
    requires ForestAt(v.g, v.img, roots, levels, blocks, ps) && TreeAt(w.g, w.img, root, levels - 1, chunk, qs)
    requires |blocks| == Mul(|roots|, Reach(v.g.nindir, levels - 1)) && |chunk| <= Reach(v.g.nindir, levels - 1)
    ensures Grown(u, w, ino, ps + qs) && |u.inodes| == |w.inodes|
    ensures ForestAt(w.g, w.img, roots + [root], levels, blocks + chunk, ps + qs)
  {
    hide ForestAt, TreeAt, CgOk, Reach, Mul;
    GrownMore(u, v, w, ino, ps, qs);
    SideGeometry(u, v);
    SideGeometry(v, w);
    ForestKept(v, w, ino, qs, roots, levels, blocks, ps);
    ForestPush(w.g, w.img, roots, levels, blocks, ps, root, chunk, qs);
  }
}
