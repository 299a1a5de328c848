/**
 The volume as the image of an abstract namespace: `Mirrors(v, t)` says that the
 inode table, the directory blocks and the file bytes of `v` are those of `t`.
 Link counts are compared separately, because operations adjust them last.
 */
module Mirror {
  import opened Arith
  import opened Geometry
  import opened VolumeState
  import opened Alloc
  import opened Pointers
  import opened Inodes
  import opened Write
  import opened Extend
  import opened Dir
  import opened Directory
  import opened DirOps
  import opened InodeAlloc
  import opened Tree

  const MAXLINKS := 0x10000

  /** The inode that `name` leads to from directory `d`, "." and ".." included. */
  ghost function Resolve(t: Tree, d: nat, name: Name): Option<nat>
    requires d in t.parents
  {
    if name == DOT then Some(d)
    else if name == DOTDOT then Some(t.parents[d])
    else if (d, name) in t.links then Some(t.links[(d, name)]) else None
  }

  ghost predicate Distinct(es: seq<Entry>) {
    forall i, j | 0 <= i < j < |es| :: es[i].name != es[j].name
  }

  /** The entries of directory `d` are exactly what the tree says, each name once. */
  ghost predicate Lists(es: seq<Entry>, t: Tree, d: nat)
    requires d in t.parents
  {
    Distinct(es) && forall e: Entry :: e in es <==> Resolve(t, d, e.name) == Some(e.ino)
  }

  /** The used inodes from the root on are those of the tree, of the same types; the others are blank. */
  ghost predicate TableOk(v: Vol, t: Tree) {
    && Shape(v)
    && (forall n | n in t.kinds :: ROOT <= n < |v.inodes| && t.kinds[n] != Unset)
    && (forall n: nat | n < |v.inodes| :: n in t.kinds <==> ROOT <= n && Used(v, n))
    && (forall n: nat | n < |v.inodes| :: v.inodes[n].nlink < MAXLINKS && v.inodes[n].kind == if n in t.kinds then t.kinds[n] else Unset)
  }

  ghost predicate DirsMatch(v: Vol, t: Tree) {
    forall d | d in t.parents :: d in t.kinds && IsDir(v, d) && Lists(Listing(v, d), t, d)
  }

  ghost predicate BytesMatch(v: Vol, t: Tree) {
    && 0 < v.g.bsize
    && (forall n | n in t.bytes :: n in t.kinds && n !in t.parents && n < |v.inodes| && Data(v, n) == t.bytes[n])
    && (forall n | n in t.devices :: n in t.bytes && n < |v.inodes| && v.inodes[n].direct == t.devices[n])
  }

  ghost predicate Mirrors(v: Vol, t: Tree) {
    Sound(v, t.kinds.Keys) && CountsOk(v) && TableOk(v, t) && DirsMatch(v, t) && BytesMatch(v, t)
  }

  /** Every link count is the number of directory records naming the inode. */
  ghost predicate LinksMatch(v: Vol, t: Tree) {
    forall n | n in t.kinds :: n < |v.inodes| && v.inodes[n].nlink == Refs(t, n)
  }

  /** The whole invariant: a consistent file system whose namespace is `t`. */
  ghost predicate FsOk(v: Vol, t: Tree) {
    Mirrors(v, t) && LinksMatch(v, t) && TreeOk(t)
  }

  /** Types and link counts are the same throughout the table. */
  ghost predicate SameTable(v: Vol, w: Vol) {
    |w.inodes| == |v.inodes| && forall m | 0 <= m < |v.inodes| :: SameIdentity(v.inodes[m], w.inodes[m])
  }

  // --- what a rewrite of one inode leaves alone ------------------------------

  lemma OthersKept(v: Vol, w: Vol, live: set<nat>, n: nat, m: nat)
    requires FilesOk(v, live) && Rewritten(v, w, n) && m in live && m != n
    ensures m < |v.inodes| && m < |w.inodes| && 0 < w.g.bsize && w.inodes[m] == v.inodes[m] && Data(w, m) == Data(v, m)
  {
    hide Rewritten, InodeOk, Contents, Footprint;
    FilesLive(v, live, m);
    RewrittenOthers(v, w, n, m);
    UntouchedInode(v, w, m);
  }

  lemma {:induction false} DirsSame(iused: seq<bool>, a: seq<Dinode>, b: seq<Dinode>, base: nat, k: nat)
    requires k <= |iused| && base + |iused| <= |a| == |b| && forall m | 0 <= m < |a| :: a[m].kind == b[m].kind
    ensures DirCount(iused, a, base, k) == DirCount(iused, b, base, k)
    decreases k
  {
    if k != 0 { DirsSame(iused, a, b, base, k - 1); }
  }

  lemma {:induction false} TotalsSame(a: seq<Cg>, b: seq<Cg>)
    requires |a| == |b| && forall i | 0 <= i < |a| :: a[i].cs.(nbfree := 0) == b[i].cs.(nbfree := 0)
    ensures Total(a).(nbfree := 0) == Total(b).(nbfree := 0)
    decreases |a|
  {
    if a != [] { TotalsSame(a[..|a| - 1], b[..|b| - 1]); }
  }

  /** The inode side of a rewritten volume. */
  lemma SideFacts(v: Vol, w: Vol, n: nat)
    requires Rewritten(v, w, n)
    ensures w.g == v.g && |w.cgs| == |v.cgs| && |w.inodes| == |v.inodes|
    ensures w.totals.(nbfree := 0) == v.totals.(nbfree := 0)
    ensures forall i | 0 <= i < |v.cgs| :: w.cgs[i].iused == v.cgs[i].iused && w.cgs[i].cs.(nbfree := 0) == v.cgs[i].cs.(nbfree := 0)
    ensures forall m | 0 <= m < |v.inodes| && m != n :: w.inodes[m] == v.inodes[m]
  {
    hide Region;
    forall i | 0 <= i < |v.cgs| ensures w.cgs[i].iused == v.cgs[i].iused && w.cgs[i].cs.(nbfree := 0) == v.cgs[i].cs.(nbfree := 0) {
      assert w.cgs[i].(free := [], cs := w.cgs[i].cs.(nbfree := 0)) == v.cgs[i].(free := [], cs := v.cgs[i].cs.(nbfree := 0));
    }
  }

  lemma CountsKept(v: Vol, w: Vol, n: nat)
    requires CountsOk(v) && Shape(w) && Rewritten(v, w, n) && SameTable(v, w)
    ensures CountsOk(w)
  {
    hide Rewritten, DirCount, Clear, Total, ValidGeometry;
    SideFacts(v, w, n);
    TotalsSame(v.cgs, w.cgs);
    forall i | 0 <= i < v.g.ncg ensures GroupCounts(w, i) {
      assert GroupCounts(v, i);
      GroupRange(v.g, i);
      DirsSame(v.cgs[i].iused, v.inodes, w.inodes, Mul(i, v.g.ipg), v.g.ipg);
    }
    CountsBits(v);
  }

  lemma CountsBits(v: Vol)
    requires CountsOk(v)
    ensures 0 < v.g.ncg && 2 <= v.g.ipg && v.cgs[0].iused[0] && v.cgs[0].iused[1]
  {
  }

  lemma UsedKept(v: Vol, w: Vol, n: nat, m: nat)
    requires Shape(v) && Shape(w) && Rewritten(v, w, n)
    ensures Used(w, m) == Used(v, m)
  {
    hide Rewritten, ValidGeometry;
    SideFacts(v, w, n);
  }

  lemma IdentityKept(v: Vol, w: Vol, n: nat)
    requires Rewritten(v, w, n) && n < |v.inodes| && n < |w.inodes| && SameIdentity(v.inodes[n], w.inodes[n])
    ensures SameTable(v, w)
  {
    hide Rewritten;
    SideFacts(v, w, n);
  }

  lemma TableKept(v: Vol, w: Vol, t: Tree, n: nat)
    requires TableOk(v, t) && Shape(w) && Rewritten(v, w, n) && SameTable(v, w)
    ensures TableOk(w, t)
  {
    hide Rewritten, Used, Shape;
    forall m: nat | m < |w.inodes| ensures Used(w, m) == Used(v, m) { UsedKept(v, w, n, m); }
  }

  /** A directory with the same record and bytes has the same listing. */
  lemma DirKept(v: Vol, w: Vol, d: nat)
    requires IsDir(v, d) && 0 < w.g.bsize && d < |w.inodes| && w.inodes[d] == v.inodes[d] && Data(w, d) == Data(v, d)
    ensures IsDir(w, d) && Listing(w, d) == Listing(v, d)
  {
    hide DirTiled, Live;
  }

  /** Directory `d` holds the same names in both trees. */
  ghost predicate SameUnder(t: Tree, u: Tree, d: nat) {
    && d in t.parents && d in u.parents && t.parents[d] == u.parents[d]
    && forall name: Name :: ((d, name) in t.links <==> (d, name) in u.links) && ((d, name) in t.links ==> t.links[(d, name)] == u.links[(d, name)])
  }

  lemma ListsKept(es: seq<Entry>, t: Tree, u: Tree, d: nat)
    requires SameUnder(t, u, d) && Lists(es, t, d)
    ensures Lists(es, u, d)
  {
    hide Distinct;
    forall e: Entry ensures Resolve(u, d, e.name) == Resolve(t, d, e.name) {
    }
  }

  /** The rest of the tree is as before: only directory or file `n` may differ. */
  ghost predicate OnlyAt(t: Tree, u: Tree, n: nat) {
    && u.kinds.Keys == t.kinds.Keys && u.kinds == t.kinds
    && (forall d | d in u.parents && d != n :: SameUnder(t, u, d))
    && (forall m | m in u.bytes && m != n :: m in t.bytes && u.bytes[m] == t.bytes[m])
    && (forall m | m in u.bytes :: m in u.kinds && m !in u.parents)
    && (forall m | m in u.devices && m != n :: m in t.devices && u.devices[m] == t.devices[m])
    && (forall m | m in u.devices :: m in u.bytes)
  }

  /** A rewrite of inode `n` that suits the changed tree keeps the image faithful. */
  lemma MirrorsRewritten(v: Vol, w: Vol, t: Tree, u: Tree, n: nat)
    requires Mirrors(v, t) && n in t.kinds && Rewritten(v, w, n) && Sound(w, t.kinds.Keys)
    requires n < |v.inodes| && n < |w.inodes| && SameIdentity(v.inodes[n], w.inodes[n])
    requires OnlyAt(t, u, n)
    requires n in u.parents ==> IsDir(w, n) && Lists(Listing(w, n), u, n)
    requires n in u.bytes ==> 0 < w.g.bsize && Data(w, n) == u.bytes[n]
    requires n in u.devices ==> w.inodes[n].direct == u.devices[n]
    ensures Mirrors(w, u) && SameTable(v, w)
  {
    hide Sound, Rewritten, CountsOk, TableOk, IsDir, Listing, Lists, SameUnder, Data, SameTable, SameIdentity;
    IdentityKept(v, w, n);
    SoundShape(w, t.kinds.Keys);
    CountsKept(v, w, n);
    TableKept(v, w, t, n);
    SameKindsTable(w, t, u);
    forall d | d in u.parents && d != n ensures d in u.kinds && IsDir(w, d) && Lists(Listing(w, d), u, d) {
      DirElsewhere(v, w, t, u, n, d);
    }
    assert DirsMatch(w, u);
    SideFacts(v, w, n);
    BytesElsewhere(v, w, t, u, n);
  }

  lemma SoundShape(w: Vol, live: set<nat>)
    requires Sound(w, live)
    ensures Shape(w) && 0 < w.g.bsize
  {
    hide GroupsOk, OwnOk;
  }

  lemma SameKindsTable(w: Vol, t: Tree, u: Tree)
    requires TableOk(w, t) && u.kinds == t.kinds
    ensures TableOk(w, u)
  {
    hide Used, Shape;
  }

  lemma DirElsewhere(v: Vol, w: Vol, t: Tree, u: Tree, n: nat, d: nat)
    requires Mirrors(v, t) && Rewritten(v, w, n) && d != n && SameUnder(t, u, d) && u.kinds == t.kinds
    ensures d in u.kinds && IsDir(w, d) && Lists(Listing(w, d), u, d)
  {
    hide BlocksOk, FilesOk, Rewritten, CountsOk, TableOk, IsDir, Listing, Lists, Data;
    DirAt(v, t, d);
    OthersKept(v, w, t.kinds.Keys, n, d);
    DirKept(v, w, d);
    ListsKept(Listing(v, d), t, u, d);
  }

  lemma DirAt(v: Vol, t: Tree, d: nat)
    requires Mirrors(v, t) && d in t.parents
    ensures d in t.kinds && IsDir(v, d) && Lists(Listing(v, d), t, d) && Sound(v, t.kinds.Keys)
  {
    hide Sound, CountsOk, TableOk, IsDir, Listing, Lists;
  }

  lemma BytesElsewhere(v: Vol, w: Vol, t: Tree, u: Tree, n: nat)
    requires Mirrors(v, t) && Rewritten(v, w, n) && OnlyAt(t, u, n) && 0 < w.g.bsize && |w.inodes| == |v.inodes| && n < |w.inodes|
    requires n in u.bytes ==> Data(w, n) == u.bytes[n]
    requires n in u.devices ==> w.inodes[n].direct == u.devices[n]
    ensures BytesMatch(w, u)
  {
    hide BlocksOk, FilesOk, Rewritten, CountsOk, TableOk, DirsMatch, Data, SameUnder;
    forall m | m in u.bytes && m != n ensures m < |w.inodes| && Data(w, m) == u.bytes[m] && w.inodes[m] == v.inodes[m] {
      OthersKept(v, w, t.kinds.Keys, n, m);
    }
  }

  // --- the three directory changes -------------------------------------------

  lemma ListsInsert(es: seq<Entry>, k: nat, t: Tree, d: nat, name: Name, n: nat)
    requires d in t.parents && Lists(es, t, d) && k <= |es| && PlainName(name) && (d, name) !in t.links
    ensures Lists(InsertAt(es, k, Entry(name, n)), Link(t, d, name, n), d)
  {
    var fs, u := InsertAt(es, k, Entry(name, n)), Link(t, d, name, n);
    assert fs == es[..k] + [Entry(name, n)] + es[k..];
    assert forall e :: e in fs <==> e in es || e == Entry(name, n);
    assert forall i | 0 <= i < |es| :: es[i].name != name by {
      forall i | 0 <= i < |es| ensures es[i].name != name { assert es[i] in es; }
    }
    assert forall e: Entry | e.name != name :: Resolve(u, d, e.name) == Resolve(t, d, e.name);
  }

  lemma ListsRemove(es: seq<Entry>, k: nat, t: Tree, d: nat, name: Name)
    requires d in t.parents && Lists(es, t, d) && k < |es| && es[k].name == name && PlainName(name)
    ensures (d, name) in t.links && Lists(RemoveAt(es, k), Unlink(t, d, name), d)
  {
    var fs, u := RemoveAt(es, k), Unlink(t, d, name);
    assert es[k] in es;
    assert fs == es[..k] + es[k + 1..];
    assert forall e :: e in es <==> e in fs || e == es[k];
    assert forall e | e in fs :: e.name != name;
    assert forall e: Entry | e.name != name :: Resolve(u, d, e.name) == Resolve(t, d, e.name);
  }

  lemma ListsUpdate(es: seq<Entry>, k: nat, t: Tree, d: nat, p: nat)
    requires d in t.parents && Lists(es, t, d) && k < |es| && es[k].name == DOTDOT
    ensures Lists(es[k := Entry(DOTDOT, p)], Adopt(t, d, p), d)
  {
    var fs, u := es[k := Entry(DOTDOT, p)], Adopt(t, d, p);
    forall e: Entry ensures e in fs <==> Resolve(u, d, e.name) == Some(e.ino) {
      if e.name == DOTDOT {
        assert fs[k] in fs;
      } else {
        if e in fs { var i :| 0 <= i < |fs| && fs[i] == e; assert e in es; }
        if e in es { var i :| 0 <= i < |es| && es[i] == e; assert fs[i] == e; }
      }
    }
  }

  lemma ListedName(es: seq<Entry>, t: Tree, d: nat, k: nat, name: Name)
    requires d in t.parents && Lists(es, t, d) && FirstAt(es, k, name)
    ensures Resolve(t, d, name) == Some(es[k].ino)
  {
    assert es[k] in es;
  }

  lemma UnlistedName(es: seq<Entry>, t: Tree, d: nat, name: Name)
    requires d in t.parents && Lists(es, t, d)
    ensures Absent(es, name) <==> Resolve(t, d, name) == None
  {
    var r := Resolve(t, d, name);
    if r.Some? {
      var e := Entry(name, r.value);
      assert e in es;
      var i :| 0 <= i < |es| && es[i] == e;
    } else {
      forall i | 0 <= i < |es| ensures es[i].name != name { assert es[i] in es; }
    }
  }
}
