/**
 The operations the daemon and the tools are built on, by parent inode and name.
 Each keeps the whole invariant `FsOk` and changes the abstract tree by exactly the
 change its name promises.
 */
module Namespace {
  import opened Arith
  import opened Geometry
  import opened VolumeState
  import opened Alloc
  import opened Inodes
  import opened Reader
  import opened Write
  import opened Extend
  import opened Dir
  import opened Directory
  import opened DirOps
  import opened InodeAlloc
  import opened Tree
  import opened ListingOps
  import opened Mirror
  import opened Steps
  import opened Births

  // --- link counts -----------------------------------------------------------

  /** Types and link counts are the same, except perhaps those of `n`. */
  ghost predicate SameBut(v: Vol, w: Vol, n: nat) {
    |w.inodes| == |v.inodes| && forall m | 0 <= m < |v.inodes| && m != n :: SameIdentity(v.inodes[m], w.inodes[m])
  }

  lemma RefsOnlyNames(t: Tree, u: Tree, m: nat)
    requires u.links == t.links && u.parents == t.parents
    ensures Refs(u, m) == Refs(t, m)
  {
    assert Keys(u, m) == Keys(t, m);
    assert Children(u, m) == Children(t, m);
  }

  lemma NewFileRefs(t: Tree, d: nat, name: Name, n: nat, kind: FileType, data: seq<byte>, m: nat)
    requires TreeOk(t) && (d, name) !in t.links && n !in t.kinds
    ensures Refs(NewFile(t, d, name, n, kind, data), m) == if m == n then 1 else Refs(t, m)
  {
    hide TreeOk, Refs;
    var u := Fill(Birth(t, n, kind), n, data);
    RefsOnlyNames(t, u, m);
    RefsAfterLink(u, d, name, n, m);
    if m == n { Unreferenced(t, n); }
  }

  lemma NewFileLinks(v: Vol, w: Vol, t: Tree, d: nat, name: Name, n: nat, kind: FileType, data: seq<byte>)
    requires TreeOk(t) && LinksMatch(v, t) && (d, name) !in t.links && n !in t.kinds
    requires SameBut(v, w, n) && n < |w.inodes| && w.inodes[n].nlink == 1
    ensures LinksMatch(w, NewFile(t, d, name, n, kind, data))
  {
    hide TreeOk, Refs;
    var u := NewFile(t, d, name, n, kind, data);
    forall m | m in u.kinds ensures m < |w.inodes| && w.inodes[m].nlink == Refs(u, m) {
      NewFileRefs(t, d, name, n, kind, data, m);
    }
  }

  lemma NewDirRefs(t: Tree, d: nat, name: Name, n: nat, m: nat)
    requires TreeOk(t) && d in t.parents && (d, name) !in t.links && n !in t.kinds
    ensures Refs(NewDir(t, d, name, n), m) == if m == n then 2 else Refs(t, m) + One(m == d)
  {
    hide TreeOk, Refs;
    Unreferenced(t, n);
    assert d != n;
    var u := Birth(t, n, Directory);
    RefsOnlyNames(t, u, m);
    RefsAfterAdopt(u, n, d, m);
    RefsAfterLink(Adopt(u, n, d), d, name, n, m);
  }

  lemma NewDirLinks(v: Vol, w: Vol, t: Tree, d: nat, name: Name, n: nat)
    requires TreeOk(t) && LinksMatch(v, t) && d in t.parents && d in t.kinds && (d, name) !in t.links && n !in t.kinds
    requires |w.inodes| == |v.inodes| && forall m | 0 <= m < |v.inodes| && m != n && m != d :: SameIdentity(v.inodes[m], w.inodes[m])
    requires n < |w.inodes| && w.inodes[n].nlink == 2 && d < |w.inodes| && w.inodes[d].nlink == v.inodes[d].nlink + 1
    ensures LinksMatch(w, NewDir(t, d, name, n))
  {
    hide TreeOk, Refs;
    var u := NewDir(t, d, name, n);
    forall m | m in u.kinds ensures m < |w.inodes| && w.inodes[m].nlink == Refs(u, m) {
      NewDirRefs(t, d, name, n, m);
    }
  }

  // --- creation --------------------------------------------------------------

  lemma FsParts(v: Vol, t: Tree)
    requires FsOk(v, t)
    ensures Mirrors(v, t) && LinksMatch(v, t) && TreeOk(t)
  {
    hide Mirrors, LinksMatch, TreeOk;
  }

  /** The record of inode `n` says whether it exists and whether it is a directory. */
  lemma Record(v: Vol, t: Tree, n: nat)
    requires FsOk(v, t) && (n < |v.inodes| || n in t.kinds || n in t.parents)
    ensures n < |v.inodes| <= U32 && v.inodes[n].nlink < MAXLINKS
    ensures n in t.kinds <==> v.inodes[n].kind != Unset
    ensures n in t.parents <==> v.inodes[n].kind == Directory
    ensures n in t.kinds ==> ROOT <= n && v.inodes[n].kind == t.kinds[n] && v.inodes[n].nlink == Refs(t, n)
    ensures n in t.bytes <==> n in t.kinds && n !in t.parents
  {
    hide Sound, CountsOk, Used, LinksOk, NamesOk, DirsMatch, BytesMatch, Refs;
    InodeNumbersFit(v);
  }

  lemma NewbornEnters(t: Tree, n: nat, kind: FileType, d: nat, name: Name)
    requires TreeOk(t) && d in t.parents && n !in t.kinds
    ensures d in Birth(t, n, kind).parents && n in Birth(t, n, kind).bytes && d != n
  {
    hide LinksOk, NamesOk, BytesOk;
  }

  /** Every inode number is in use. */
  ghost predicate NoInodes(v: Vol, t: Tree) { forall n: nat | ROOT <= n < |v.inodes| :: n in t.kinds }

  lemma NoneToGive(v: Vol, t: Tree)
    requires forall n: nat | ROOT <= n < |v.inodes| :: n in t.kinds
    ensures NoInodes(v, t)
  {
  }

  /** Allocates an inode, fills it and names it: the part all file creators share. */
  method AddFile(vol: Volume, parent: nat, name: Name, kind: FileType, data: seq<byte>, store: bool, ghost t: Tree) returns (r: Result<nat>)
    requires FsOk(vol.View(), t) && parent in t.parents && PlainName(name) && (parent, name) !in t.links
    requires kind != Unset && kind != Directory && (!store ==> data == [])
    modifies vol, vol.image
    ensures r.Ok? ==> r.value !in t.kinds && FsOk(vol.View(), NewFile(t, parent, name, r.value, kind, data))
    ensures r.Err? ==> NoSpace(vol.g, vol.own) || NoInodes(vol.View(), t)
  {
    hide FirstChoice, NoInodes, NoSpace, FsOk, Mirrors, LinksMatch, TreeOk, Fresh, Refs;
    ghost var v := vol.View();
    FsParts(v, t);
    Record(v, t, parent);
    var made := NewInode(vol, parent, kind, 1, t);
    if made.Err? {
      NoneToGive(vol.View(), t);
      return Err;
    }
    var n := made.value;
    ghost var t1 := Birth(t, n, kind);
    NewbornEnters(t, n, kind, parent, name);
    if store {
      var stored := StoreBytes(vol, n, data, t1);
      if stored.Err? { return Err; }
    } else {
      assert Fill(t1, n, data) == t1;
    }
    var entered := Enter(vol, parent, name, n, Fill(t1, n, data));
    if entered.Err? { return Err; }
    FreshIs(kind, 1);
    NewFileLinks(v, vol.View(), t, parent, name, n, kind, data);
    NewFileOk(t, parent, name, n, kind, data);
    FsIs(vol.View(), NewFile(t, parent, name, n, kind, data));
    return Ok(n);
  }

  lemma FsIs(v: Vol, t: Tree)
    requires Mirrors(v, t) && LinksMatch(v, t) && TreeOk(t)
    ensures FsOk(v, t)
  {
    hide Mirrors, LinksMatch, TreeOk;
  }

  /** `create_empty_in_parent`; the caller has checked that the name is free. */
  method CreateEmptyInParent(vol: Volume, parent: nat, name: Name, kind: FileType, ghost t: Tree) returns (r: Result<nat>)
    requires FsOk(vol.View(), t) && PlainName(name) && (parent, name) !in t.links && kind != Unset && kind != Directory
    modifies vol, vol.image
    ensures r.Ok? ==> parent in t.parents && r.value !in t.kinds && FsOk(vol.View(), NewFile(t, parent, name, r.value, kind, []))
    ensures parent !in t.parents ==> r.Err? && vol.View() == old(vol.View())
    ensures r.Err? && parent in t.parents ==> NoSpace(vol.g, vol.own) || NoInodes(vol.View(), t)
  {
    hide FsOk, NoSpace, NoInodes;
    if parent in t.parents { Record(vol.View(), t, parent); }
    if parent >= |vol.inodes| { return Err; }
    Record(vol.View(), t, parent);
    if vol.inodes[parent].kind != Directory { return Err; }
    r := AddFile(vol, parent, name, kind, [], false, t);
  }

  /** `symlink_in_parent`: the target path is the file's contents. */
  method SymlinkInParent(vol: Volume, parent: nat, name: Name, target: seq<byte>, ghost t: Tree) returns (r: Result<nat>)
    requires FsOk(vol.View(), t) && parent in t.parents && PlainName(name) && (parent, name) !in t.links
    modifies vol, vol.image
    ensures r.Ok? ==> r.value !in t.kinds && FsOk(vol.View(), NewFile(t, parent, name, r.value, Symlink, target))
    ensures r.Err? ==> NoSpace(vol.g, vol.own) || NoInodes(vol.View(), t)
  {
    hide FsOk, NoSpace, NoInodes;
    r := AddFile(vol, parent, name, Symlink, target, true, t);
  }

  // --- directories -----------------------------------------------------------

  /** A file whose bytes are a first directory block becomes a directory. */
  lemma Enrolled(v: Vol, t: Tree, n: nat, p: nat)
    requires Mirrors(v, t) && n in t.bytes && 0 < n < U32 && 0 < p < U32 && t.bytes[n] == DotBlock(n, p)
    requires t.kinds[n] == Directory && n !in t.parents && forall k | k in t.links :: k.0 != n
    ensures Mirrors(v, Adopt(t, n, p))
  {
    hide Sound, CountsOk, TableOk, DirTiled, Live, Data, DotBlock, Lists, DirsMatch, BytesMatch;
    var u := Adopt(t, n, p);
    MirrorFacts(v, t);
    SameKindsTable(v, t, u);
    FileBytes(v, t, n);
    DotBlockOk(n, p);
    assert IsDir(v, n);
    DotListed(u, n, p);
    OtherDirs(v, t, n, p);
    OtherBytes(v, t, n, p);
  }

  lemma FileBytes(v: Vol, t: Tree, n: nat)
    requires Mirrors(v, t) && n in t.bytes
    ensures 0 < v.g.bsize && n < |v.inodes| && Data(v, n) == t.bytes[n] && n in t.kinds && n !in t.parents
  {
    hide Sound, CountsOk, TableOk, DirsMatch, Data;
  }

  lemma OtherDirs(v: Vol, t: Tree, n: nat, p: nat)
    requires Mirrors(v, t) && n in t.kinds && IsDir(v, n) && Lists(Listing(v, n), Adopt(t, n, p), n)
    ensures DirsMatch(v, Adopt(t, n, p))
  {
    hide Sound, CountsOk, TableOk, BytesMatch, IsDir, Lists, Listing;
    var u := Adopt(t, n, p);
    forall d | d in u.parents && d != n ensures IsDir(v, d) && Lists(Listing(v, d), u, d) {
      ListsKept(Listing(v, d), t, u, d);
    }
  }

  lemma OtherBytes(v: Vol, t: Tree, n: nat, p: nat)
    requires Mirrors(v, t)
    ensures BytesMatch(v, Adopt(t, n, p))
  {
    hide Sound, CountsOk, TableOk, DirsMatch, Data;
  }

  lemma DotListed(u: Tree, n: nat, p: nat)
    requires n in u.parents && u.parents[n] == p && forall k | k in u.links :: k.0 != n
    ensures Lists([Entry(DOT, n), Entry(DOTDOT, p)], u, n)
  {
    forall e: Entry ensures e in [Entry(DOT, n), Entry(DOTDOT, p)] <==> Resolve(u, n, e.name) == Some(e.ino) {
      assert (n, e.name) !in u.links;
    }
  }

  lemma NewbornUnlinked(t: Tree, n: nat)
    requires TreeOk(t) && n !in t.kinds
    ensures n !in t.parents && n !in t.bytes && forall k | k in t.links :: k.0 != n
  {
    hide NamesOk;
  }

  /** `mkdir_in_parent`. */
  method MkdirInParent(vol: Volume, parent: nat, name: Name, ghost t: Tree) returns (r: Result<nat>)
    requires FsOk(vol.View(), t) && PlainName(name) && (parent, name) !in t.links
    modifies vol, vol.image
    ensures r.Ok? ==> parent in t.parents && r.value !in t.kinds && FsOk(vol.View(), NewDir(t, parent, name, r.value))
    ensures parent !in t.parents ==> r.Err? && vol.View() == old(vol.View())
    ensures r.Err? && parent in t.parents ==> NoSpace(vol.g, vol.own) || NoInodes(vol.View(), t) || Refs(t, parent) + 1 == MAXLINKS
  {
    hide FirstChoice, NoSpace, NoInodes, FsOk, Mirrors, LinksMatch, TreeOk, Fresh, Refs, DotBlock;
    ghost var v := vol.View();
    if parent in t.parents { Record(v, t, parent); }
    if parent >= |vol.inodes| { return Err; }
    Record(v, t, parent);
    if vol.inodes[parent].kind != Directory { return Err; }
    var links := vol.inodes[parent].nlink;
    FsParts(v, t);
    var made := NewInode(vol, parent, Directory, 2, t);
    if made.Err? {
      NoneToGive(vol.View(), t);
      return Err;
    }
    var n := made.value;
    NewbornUnlinked(t, n);
    FreshIs(Directory, 2);
    ghost var t1 := Birth(t, n, Directory);
    var stored := StoreBytes(vol, n, DotBlock(n, parent), t1);
    if stored.Err? { return Err; }
    Enrolled(vol.View(), Fill(t1, n, DotBlock(n, parent)), n, parent);
    ghost var t2 := Adopt(t1, n, parent);
    assert Adopt(Fill(t1, n, DotBlock(n, parent)), n, parent) == t2 by { BytesDropped(t1, n, DotBlock(n, parent)); }
    var entered := Enter(vol, parent, name, n, t2);
    if entered.Err? || links + 1 >= MAXLINKS { return Err; }
    SetLinks(vol, parent, links + 1, NewDir(t, parent, name, n));
    NewDirLinks(v, vol.View(), t, parent, name, n);
    NewDirOk(t, parent, name, n);
    FsIs(vol.View(), NewDir(t, parent, name, n));
    return Ok(n);
  }

  lemma BytesDropped(t: Tree, n: nat, data: seq<byte>)
    ensures t.bytes[n := data] - {n} == t.bytes - {n} && (t.devices - {n}) - {n} == t.devices - {n}
  {
  }

  // --- device nodes ----------------------------------------------------------

  /** `a | b`, bit by bit. */
  function BitOr(a: nat, b: nat): nat
    decreases a + b
  {
    if a == 0 || b == 0 then a + b else 2 * BitOr(a / 2, b / 2) + Max(a % 2, b % 2)
  }

  /** The first two direct slots of a device node: old and expanded device number. */
  function DeviceSlots(major: word, minor: word): (r: seq<nat>)
    ensures |r| == NDADDR && forall i | 2 <= i < NDADDR :: r[i] == 0
  {
    [major % 128 * 256 + minor % 256, BitOr(major * MINORS % U32, minor)] + seq(NDADDR - 2, _ => 0)
  }

  /** Minor numbers an expanded device number has room for; 18 bits. */
  const MINORS: nat := 0x4_0000

  /** Bit `k` of `a`. */
  ghost predicate BitAt(a: nat, k: nat) { if k == 0 then a % 2 == 1 else BitAt(a / 2, k - 1) }

  /** Both numbers can be read back: cut to 7 and 8 bits from the old form, and from the expanded form, in which the
      major number starts at bit 18, exactly when they fit its 14 and 18 bits. */
  ghost predicate TellsDevice(slots: seq<nat>, major: word, minor: word) {
    && |slots| == NDADDR && (forall i | 2 <= i < NDADDR :: slots[i] == 0)
    && slots[0] / 256 == major % 128 && slots[0] % 256 == minor % 256
    && slots[1] < U32 && slots[1] % MINORS == minor % MINORS
    && (forall k: nat | k < 32 :: BitAt(slots[1], k) <==> BitAt(minor, k) || (18 <= k && BitAt(major, k - 18)))
    && (slots[1] / MINORS == major && slots[1] % MINORS == minor <==> major < 0x4000 && minor < MINORS)
  }

  lemma DevicesTold(major: word, minor: word)
    ensures TellsDevice(DeviceSlots(major, minor), major, minor)
  {
    hide BitOr, BitAt;
    Expanded(major, minor);
    forall k: nat | k < 32
      ensures BitAt(BitOr(major * MINORS % U32, minor), k) <==> BitAt(minor, k) || (18 <= k && BitAt(major, k - 18))
    {
      ExpandedBit(major, minor, k);
    }
    DeviceParts(BitOr(major % 0x4000, minor / MINORS), minor % MINORS);
  }

  lemma ExpandedBit(major: word, minor: word, k: nat)
    requires k < 32
    ensures BitAt(BitOr(major * MINORS % U32, minor), k) <==> BitAt(minor, k) || (18 <= k && BitAt(major, k - 18))
  {
    hide BitOr, BitAt, Shl;
    var h := major % 0x4000;
    Eighteen(h);
    OrBits(Shl(h, 18), minor, k);
    ShiftedBits(h, 18, k);
    if 18 <= k {
      Fourteens(major / 0x4000);
      LowBits(major / 0x4000, h, 14, k - 18);
    }
  }

  lemma {:induction false} OrBits(a: nat, b: nat, k: nat)
    ensures BitAt(BitOr(a, b), k) <==> BitAt(a, k) || BitAt(b, k)
    decreases k
  {
    NoBits(k);
    if k != 0 && a != 0 && b != 0 { OrBits(a / 2, b / 2, k - 1); }
  }

  lemma {:induction false} NoBits(k: nat)
    ensures !BitAt(0, k)
    decreases k
  {
    if k != 0 { NoBits(k - 1); }
  }

  lemma {:induction false} ShiftedBits(a: nat, m: nat, k: nat)
    ensures BitAt(Shl(a, m), k) <==> m <= k && BitAt(a, k - m)
    decreases m
  {
    if m != 0 && k != 0 { ShiftedBits(a, m - 1, k - 1); }
  }

  lemma {:induction false} LowBits(c: nat, r: nat, m: nat, k: nat)
    requires k < m
    ensures BitAt(Shl(c, m) + r, k) <==> BitAt(r, k)
    decreases m
  {
    if k != 0 {
      assert (Shl(c, m) + r) / 2 == Shl(c, m - 1) + r / 2;
      LowBits(c, r / 2, m - 1, k - 1);
    }
  }

  lemma Fourteens(a: nat)
    ensures Shl(a, 14) == a * 0x4000
  {
    ShlIs(a, 14);
    Fourteen();
  }

  /** Devices that do not fit can be stored alike: major 128 with minor 0, say, and major 0 with minor 2^25. */
  lemma DevicesAlike(major: word)
    requires major % 128 == 0
    ensures DeviceSlots(major, 0) == DeviceSlots(0, major * MINORS % U32)
  {
    hide BitOr;
    OrZero(major * MINORS % U32);
  }

  lemma DeviceParts(q: nat, r: nat)
    requires r < MINORS
    ensures (q * MINORS + r) / MINORS == q && (q * MINORS + r) % MINORS == r
  {
  }

  lemma Expanded(major: word, minor: word)
    ensures var low := BitOr(major % 0x4000, minor / MINORS);
      && BitOr(major * MINORS % U32, minor) == low * MINORS + minor % MINORS
      && low < 0x4000 && (minor < MINORS ==> low == major % 0x4000)
  {
    hide BitOr, Shl, Shr, Low;
    var h, hi := major % 0x4000, Shr(minor, 18);
    ShiftedParts(minor, 18);
    Eighteen(1);
    Eighteen(hi);
    DeviceParts(hi, Low(minor, 18));
    Eighteen(h);
    Eighteen(BitOr(h, hi));
    OrSplit(h, minor, 18);
    Fourteen();
    OrBelow(h, hi, 14);
    OrZero(h);
  }

  /** Shifts by `k` bits, and the bits a shift to the right drops. */
  ghost function Shl(a: nat, k: nat): nat { if k == 0 then a else 2 * Shl(a, k - 1) }
  ghost function Shr(a: nat, k: nat): nat { if k == 0 then a else Shr(a / 2, k - 1) }
  ghost function Low(a: nat, k: nat): nat { if k == 0 then 0 else 2 * Low(a / 2, k - 1) + a % 2 }

  lemma Eighteen(a: nat)
    ensures Shl(a, 18) == a * MINORS
  {
    ShlIs(a, 18);
    assert Shl(1, 6) == 64 && Shl(1, 12) == 4096 && Shl(1, 18) == MINORS;
  }

  lemma {:induction false} ShlIs(a: nat, k: nat)
    ensures Shl(a, k) == a * Shl(1, k)
    decreases k
  {
    if k != 0 { ShlIs(a, k - 1); }
  }

  lemma Fourteen()
    ensures Shl(1, 14) == 0x4000
  {
    assert Shl(1, 7) == 128;
  }

  lemma OrZero(h: nat)
    ensures BitOr(h, 0) == h == BitOr(0, h)
  {
  }

  lemma {:induction false} ShiftedParts(a: nat, k: nat)
    ensures a == Shl(Shr(a, k), k) + Low(a, k) && Low(a, k) < Shl(1, k)
    decreases k
  {
    if k != 0 { ShiftedParts(a / 2, k - 1); }
  }

  /** The low bits of a shifted number are free for the other operand. */
  lemma {:induction false} OrSplit(h: nat, b: nat, k: nat)
    ensures BitOr(Shl(h, k), b) == Shl(BitOr(h, Shr(b, k)), k) + Low(b, k)
    decreases k
  {
    if k != 0 {
      OrSplit(h, b / 2, k - 1);
      OrStep(Shl(h, k - 1), b);
    }
  }

  lemma OrStep(a: nat, b: nat)
    ensures BitOr(2 * a, b) == 2 * BitOr(a, b / 2) + b % 2
  {
  }

  lemma {:induction false} OrBelow(a: nat, b: nat, k: nat)
    requires a < Shl(1, k) && b < Shl(1, k)
    ensures BitOr(a, b) < Shl(1, k)
    decreases k
  {
    if k != 0 { OrBelow(a / 2, b / 2, k - 1); }
  }

  /** A holdless inode may carry anything in its direct slots. */
  lemma DeviceMirrors(v: Vol, t: Tree, n: nat, slots: seq<nat>)
    requires Mirrors(v, t) && n in t.bytes && n < |v.inodes| && Holdless(v.inodes[n]) && |slots| == NDADDR
    ensures var w := v.(inodes := v.inodes[n := v.inodes[n].(direct := slots)]); Mirrors(w, Equip(t, n, slots)) && SameTable(v, w)
  {
    hide Mirrors, Sound, Rewritten, Footprint, InodeOk, Data, Holdless, SameUnder, SameTable;
    var w := v.(inodes := v.inodes[n := v.inodes[n].(direct := slots)]);
    StillHoldless(v.inodes[n], slots);
    FileBytes(v, t, n);
    MirrorFacts(v, t);
    SoundFsize(v, t.kinds.Keys);
    HoldlessOk(v, n);
    HoldlessOk(w, n);
    RewrittenByRecord(v, n, w.inodes[n]);
    DeviceSound(v, w, t.kinds.Keys, n);
    EquipOnlyAt(v, t, n, slots);
    MirrorsRewritten(v, w, t, Equip(t, n, slots), n);
  }

  lemma EquipOnlyAt(v: Vol, t: Tree, n: nat, slots: seq<nat>)
    requires Mirrors(v, t) && n in t.bytes
    ensures OnlyAt(t, Equip(t, n, slots), n) && n !in t.parents && n in t.kinds
  {
    hide Mirrors;
    BytesApart(v, t);
  }

  lemma StillHoldless(d: Dinode, slots: seq<nat>)
    requires Holdless(d) && |slots| == NDADDR
    ensures Holdless(d.(direct := slots))
  {
  }

  lemma DeviceSound(v: Vol, w: Vol, live: set<nat>, n: nat)
    requires Sound(v, live) && n in live && Rewritten(v, w, n) && n < |v.inodes| && w == v.(inodes := w.inodes) && |w.inodes| == |v.inodes|
    requires 0 < w.g.bsize && 0 < w.g.fsize && InodeOk(w, n) && Footprint(w, n) == Footprint(v, n)
    ensures Sound(w, live)
  {
    hide BlocksOk, FilesOk, Rewritten, Footprint, InodeOk;
    InodesIrrelevant(v, w);
    OwnersReach(v, w, live, n);
    RewrittenFiles(v, w, live, n);
  }

  lemma NodeIs(t: Tree, d: nat, name: Name, n: nat, kind: FileType, slots: seq<nat>)
    ensures Link(Equip(Birth(t, n, kind), n, slots), d, name, n) == NewNode(t, d, name, n, kind, slots)
  {
    assert t.bytes[n := []][n := []] == t.bytes[n := []];
    assert (t.devices - {n}) - {n} == t.devices - {n};
  }

  lemma NodeLinks(v: Vol, t: Tree, d: nat, name: Name, n: nat, kind: FileType, slots: seq<nat>)
    requires LinksMatch(v, NewFile(t, d, name, n, kind, []))
    ensures LinksMatch(v, NewNode(t, d, name, n, kind, slots))
  {
    hide Refs;
    var a, b := NewFile(t, d, name, n, kind, []), NewNode(t, d, name, n, kind, slots);
    forall m | m in b.kinds ensures m < |v.inodes| && v.inodes[m].nlink == Refs(b, m) { RefsOnlyNames(a, b, m); }
  }

  /** `mknod_in_parent`: a character or block device. */
  method MknodInParent(vol: Volume, parent: nat, name: Name, kind: FileType, major: word, minor: word, ghost t: Tree) returns (r: Result<nat>)
    requires FsOk(vol.View(), t) && PlainName(name) && (parent, name) !in t.links
    modifies vol, vol.image
    ensures r.Ok? ==> (kind == CharSpecial || kind == BlockSpecial) && parent in t.parents && r.value !in t.kinds
    ensures r.Ok? ==> FsOk(vol.View(), NewNode(t, parent, name, r.value, kind, DeviceSlots(major, minor)))
    ensures r.Ok? ==> r.value < |vol.inodes| && vol.inodes[r.value].direct == DeviceSlots(major, minor)
    ensures TellsDevice(DeviceSlots(major, minor), major, minor)
    ensures parent !in t.parents || (kind != CharSpecial && kind != BlockSpecial) ==> r.Err? && vol.View() == old(vol.View())
    ensures r.Err? && parent in t.parents && (kind == CharSpecial || kind == BlockSpecial) ==>
              NoSpace(vol.g, vol.own) || NoInodes(vol.View(), t)
  {
    hide FirstChoice, NoSpace, NoInodes, FsOk, Mirrors, LinksMatch, TreeOk, Fresh, Refs, DeviceSlots, TellsDevice;
    DevicesTold(major, minor);
    ghost var v := vol.View();
    if kind != CharSpecial && kind != BlockSpecial { return Err; }
    if parent in t.parents { Record(v, t, parent); }
    if parent >= |vol.inodes| { return Err; }
    Record(v, t, parent);
    if vol.inodes[parent].kind != Directory { return Err; }
    FsParts(v, t);
    var made := NewInode(vol, parent, kind, 1, t);
    if made.Err? {
      NoneToGive(vol.View(), t);
      return Err;
    }
    var n := made.value;
    NewbornEnters(t, n, kind, parent, name);
    FreshIs(kind, 1);
    FreshHoldless(kind, 1);
    ghost var t1 := Birth(t, n, kind);
    DeviceMirrors(vol.View(), t1, n, DeviceSlots(major, minor));
    vol.inodes := vol.inodes[n := vol.inodes[n].(direct := DeviceSlots(major, minor))];
    ghost var slots := DeviceSlots(major, minor);
    var entered := Enter(vol, parent, name, n, Equip(t1, n, slots));
    if entered.Err? { return Err; }
    NodeIs(t, parent, name, n, kind, slots);
    NewFileLinks(v, vol.View(), t, parent, name, n, kind, []);
    NodeLinks(vol.View(), t, parent, name, n, kind, slots);
    NewNodeOk(t, parent, name, n, kind, slots);
    FsIs(vol.View(), NewNode(t, parent, name, n, kind, slots));
    return Ok(n);
  }
}
