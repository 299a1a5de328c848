/** The boot file system: a flat, contiguous layout written once and read back. */
module Bfs {
  import opened Geometry
  import opened Codec
  import opened VolumeState
  import opened Dir

  const MAGIC: nat := 0x1BAD_FACE
  const SUPERSIZE: nat := 512
  const SLOT: nat := 64
  const LDIR: nat := 16
  const NAMELEN: nat := 14
  const ROOTINO: nat := 2
  const VREG: nat := 1
  const VDIR: nat := 2

  datatype File = File(name: Name, data: seq<byte>)
  datatype Volume = Volume(start: nat, dataStart: nat, dataEnd: nat)
  datatype Listed = Listed(name: Name, ino: nat, size: nat)

  // --- bytes in place --------------------------------------------------------

  /** The bytes `d` stand at `at`. */
  ghost predicate Stands(s: seq<byte>, at: nat, d: seq<byte>) { at + |d| <= |s| && s[at..at + |d|] == d }

  lemma StandsKept(s: seq<byte>, at: nat, d: seq<byte>, p: nat, e: seq<byte>)
    requires Stands(s, at, d) && p + |e| <= |s| && (at + |d| <= p || p + |e| <= at)
    ensures Stands(Splice(s, p, e), at, d)
  {
    hide Splice;
    SpliceParts(s, p, e, at, at + |d|);
  }

  lemma StandsNew(s: seq<byte>, p: nat, e: seq<byte>)
    requires p + |e| <= |s|
    ensures Stands(Splice(s, p, e), p, e)
  {
    hide Splice;
    SpliceParts(s, p, e, p, p + |e|);
  }

  lemma FieldAt(s: seq<byte>, at: nat, d: seq<byte>, k: nat)
    requires Stands(s, at, d)
    ensures k + 2 <= |d| ==> U16At(s, at + k) == U16At(d, k)
    ensures k + 4 <= |d| ==> U32At(s, at + k) == U32At(d, k)
  {
    forall i | 0 <= i < |d| ensures s[at + i] == d[i] { assert s[at..at + |d|][i] == d[i]; }
  }

  method PutBytes(out: array<byte>, at: nat, d: seq<byte>)
    requires at + |d| <= out.Length
    modifies out
    ensures out[..] == Splice(old(out[..]), at, d)
  {
    forall i | 0 <= i < |d| { out[at + i] := d[i]; }
  }

  // --- records ---------------------------------------------------------------

  /** `put_dirent`: the leading bytes of an inode record. */
  function Dirent(ino: nat, sblock: nat, eblock: nat, eoffset: nat, kind: nat, mode: nat, nlink: nat, time: nat): (r: seq<byte>)
    requires ino < U16 && sblock < U32 && eblock < U32 && eoffset < U32 && kind < U32 && mode < U32 && nlink < U32 && time < U32
    ensures |r| == 48
  {
    Le16(ino) + [0, 0] + Le32(sblock) + Le32(eblock) + Le32(eoffset)
    + Le32(kind) + Le32(mode) + Le32(0) + Le32(0) + Le32(nlink) + Le32(time) + Le32(time) + Le32(time)
  }

  lemma DirentFields(ino: nat, sblock: nat, eblock: nat, eoffset: nat, kind: nat, mode: nat, nlink: nat, time: nat)
    requires ino < U16 && sblock < U32 && eblock < U32 && eoffset < U32 && kind < U32 && mode < U32 && nlink < U32 && time < U32
    ensures var d := Dirent(ino, sblock, eblock, eoffset, kind, mode, nlink, time);
      U16At(d, 0) == ino && U32At(d, 4) == sblock && U32At(d, 8) == eblock && U32At(d, 12) == eoffset && U32At(d, 16) == kind
      && U32At(d, 20) == mode && U32At(d, 32) == nlink && U32At(d, 36) == time && U32At(d, 40) == time && U32At(d, 44) == time
  {
    hide Le32, Le16;
    DirentTail(ino, sblock, eblock, eoffset, kind, mode, nlink, time);
    var a, b, c, e := Le32(sblock), Le32(eblock), Le32(eoffset), Le32(kind);
    var d := Dirent(ino, sblock, eblock, eoffset, kind, mode, nlink, time);
    assert d[0..2] == Le16(ino) && d[4..8] == a && d[8..12] == b && d[12..16] == c && d[16..20] == e;
    FieldAt(d, 0, Le16(ino), 0);
    FieldAt(d, 4, a, 0);
    FieldAt(d, 8, b, 0);
    FieldAt(d, 12, c, 0);
    FieldAt(d, 16, e, 0);
  }

  lemma DirentTail(ino: nat, sblock: nat, eblock: nat, eoffset: nat, kind: nat, mode: nat, nlink: nat, time: nat)
    requires ino < U16 && sblock < U32 && eblock < U32 && eoffset < U32 && kind < U32 && mode < U32 && nlink < U32 && time < U32
    ensures var d := Dirent(ino, sblock, eblock, eoffset, kind, mode, nlink, time);
      U32At(d, 20) == mode && U32At(d, 32) == nlink && U32At(d, 36) == time && U32At(d, 40) == time && U32At(d, 44) == time
  {
    hide Le32, Le16;
    var a, b, c := Le32(mode), Le32(nlink), Le32(time);
    var d := Dirent(ino, sblock, eblock, eoffset, kind, mode, nlink, time);
    assert d[20..24] == a && d[32..36] == b && d[36..40] == c && d[40..44] == c && d[44..48] == c;
    FieldAt(d, 20, a, 0);
    FieldAt(d, 32, b, 0);
    FieldAt(d, 36, c, 0);
    FieldAt(d, 40, c, 0);
    FieldAt(d, 44, c, 0);
  }

  /** One 16-byte root directory entry: the inode number and the zero-padded name. */
  function Ldir(ino: nat, name: Name): (r: seq<byte>)
    requires ino < U16 && |name| <= NAMELEN
    ensures |r| == LDIR
  {
    Le16(ino) + name + Zeros(NAMELEN - |name|)
  }

  /** The superblock: magic, data bounds and four words of minus one. */
  function Super(dataStart: nat, dataEnd: nat): (r: seq<byte>)
    requires dataStart < U32 && dataEnd < U32
    ensures |r| == 28
  {
    Le32(MAGIC) + Le32(dataStart) + Le32(dataEnd) + Le32(0xFFFF_FFFF) + Le32(0xFFFF_FFFF) + Le32(0xFFFF_FFFF) + Le32(0xFFFF_FFFF)
  }

  // --- layout ----------------------------------------------------------------

  function RoundUp(n: nat): nat { (n + SECTOR - 1) / SECTOR * SECTOR }

  predicate NameFine(name: Name) {
    0 < |name| <= NAMELEN && forall i | 0 <= i < |name| :: name[i] != 47 && name[i] < 128
  }

  predicate NamesFine(files: seq<File>) {
    && (forall i | 0 <= i < |files| :: NameFine(files[i].name))
    && (forall i, j | 0 <= i < j < |files| :: files[i].name != files[j].name)
  }

  function Slots(n: nat, wanted: Option<nat>): nat {
    Max(n + 1, match wanted case None => Max(16, n + 1) case Some(k) => k)
  }

  function DataStart(n: nat, wanted: Option<nat>): nat { RoundUp(SUPERSIZE + Slots(n, wanted) * SLOT) }

  function RootAlloc(n: nat): nat { Max(SECTOR, RoundUp(Max(n * LDIR, 1))) }

  /** Where the first `i` files end. */
  function Extent(files: seq<File>, from: nat, i: nat): nat
    requires i <= |files|
  {
    if i == 0 then from else Extent(files, from, i - 1) + RoundUp(|files[i - 1].data|)
  }

  lemma RoundUpFacts(n: nat)
    ensures n <= RoundUp(n) < n + SECTOR && RoundUp(n) % SECTOR == 0 && (n == 0 ==> RoundUp(n) == 0)
  {
  }

  lemma {:induction false} ExtentFacts(files: seq<File>, from: nat, i: nat, j: nat)
    requires i <= j <= |files| && from % SECTOR == 0
    ensures from <= Extent(files, from, i) <= Extent(files, from, j) && Extent(files, from, i) % SECTOR == 0
    ensures i < j ==> Extent(files, from, i) + |files[i].data| <= Extent(files, from, j)
    decreases j, i
  {
    hide RoundUp;
    if i < j {
      ExtentFacts(files, from, i, j - 1);
      RoundUpFacts(|files[j - 1].data|);
    } else if i > 0 {
      ExtentFacts(files, from, i - 1, i - 1);
      RoundUpFacts(|files[i - 1].data|);
    }
  }

  /** What `format` accepts: a big enough slice and proper, distinct names. */
  predicate Accepted(size: nat, files: seq<File>, wanted: Option<nat>) {
    var from := DataStart(|files|, wanted) + RootAlloc(|files|);
    SUPERSIZE + SECTOR <= size && NamesFine(files) && from <= size && Fit(files, from, size)
  }

  /** Every nonempty file's extent ends inside the slice. */
  predicate Fit(files: seq<File>, from: nat, size: nat) {
    forall i | 0 <= i < |files| :: FitsAt(files, from, size, i)
  }

  predicate FitsAt(files: seq<File>, from: nat, size: nat, i: nat)
    requires i < |files|
  {
    files[i].data != [] ==> Extent(files, from, i + 1) <= size
  }

  // --- writing ---------------------------------------------------------------

  /** Checks each name, and that it has not been seen. */
  method CheckNames(files: seq<File>) returns (r: bool)
    ensures r == NamesFine(files)
  {
    var seen: seq<Name> := [];
    for i := 0 to |files|
      invariant |seen| == i && forall j | 0 <= j < i :: seen[j] == files[j].name
      invariant NamesFine(files[..i])
    {
      if !NameFine(files[i].name) || files[i].name in seen {
        assert files[i].name in seen ==> exists j :: 0 <= j < i && files[j].name == files[i].name;
        return false;
      }
      assert forall j | 0 <= j < i :: seen[j] in seen;
      seen := seen + [files[i].name];
    }
    assert files[..|files|] == files;
    return true;
  }

  /** Lays the extents out one after the other; `None` when one does not fit. */
  method PlaceFiles(files: seq<File>, from: nat, size: nat) returns (starts: Option<seq<nat>>)
    ensures starts.Some? <==> Fit(files, from, size)
    ensures starts.Some? ==> |starts.value| == |files| && forall i | 0 <= i < |files| :: starts.value[i] == Extent(files, from, i)
  {
    hide RoundUp;
    var current := from;
    var list: seq<nat> := [];
    for i := 0 to |files|
      invariant current == Extent(files, from, i) && |list| == i && forall j | 0 <= j < i :: list[j] == Extent(files, from, j)
      invariant forall j | 0 <= j < i :: FitsAt(files, from, size, j)
    {
      list := list + [current];
      if files[i].data == [] {
        RoundUpFacts(0);
        continue;
      }
      var allocation := RoundUp(|files[i].data|);
      if current + allocation > size {
        assert !FitsAt(files, from, size, i);
        return None;
      }
      current := current + allocation;
    }
    return Some(list);
  }

  /** Field widths: byte offsets in 32 bits, inode numbers in 16. */
  ghost predicate Narrow(size: nat, files: seq<File>, time: nat) { size <= U32 && |files| + 2 < U16 && time < U32 }

  /** The inode record of file `i`, whose extent starts at `at`. */
  function FileRecord(i: nat, data: seq<byte>, at: nat, time: nat): (r: seq<byte>)
    requires i + 3 < U16 && time < U32 && at + RoundUp(|data|) <= U32
    ensures |r| == 48
  {
    RoundUpFacts(|data|);
    if data == [] then Dirent(i + 3, 0, 0, 0, VREG, 0x1A4, 1, time)
    else Dirent(i + 3, at / SECTOR, (at + RoundUp(|data|)) / SECTOR - 1, at + |data| - 1, VREG, 0x1A4, 1, time)
  }

  function RootRecord(n: nat, dataStart: nat, time: nat): (r: seq<byte>)
    requires time < U32 && SUPERSIZE <= dataStart && dataStart + RootAlloc(n) <= U32
    ensures |r| == 48
  {
    RoundUpFacts(Max(n * LDIR, 1));
    Dirent(ROOTINO, dataStart / SECTOR, (dataStart + RootAlloc(n)) / SECTOR - 1,
           if n * LDIR != 0 then dataStart + n * LDIR - 1 else dataStart - 1, VDIR, 0x1ED, 2, time)
  }

  /** The record file `i` gets in the layout. */
  ghost function RecordOf(size: nat, files: seq<File>, wanted: Option<nat>, time: nat, i: nat): (r: seq<byte>)
    requires Narrow(size, files, time) && Accepted(size, files, wanted) && i < |files|
    ensures |r| == 48
  {
    Bounded(size, files, wanted, i);
    var at := Extent(files, DataStart(|files|, wanted) + RootAlloc(|files|), i);
    FileRecord(i, files[i].data, if files[i].data == [] then 0 else at, time)
  }

  /** Record, directory entry and bytes of file `i` are in place. */
  ghost predicate FileStored(s: seq<byte>, base: nat, size: nat, files: seq<File>, wanted: Option<nat>, time: nat, i: nat)
    requires Narrow(size, files, time) && Accepted(size, files, wanted) && i < |files|
  {
    var ds := DataStart(|files|, wanted);
    var at := Extent(files, ds + RootAlloc(|files|), i);
    Bounded(size, files, wanted, i);
    && Stands(s, base + SUPERSIZE + (i + 1) * SLOT, RecordOf(size, files, wanted, time, i))
    && Stands(s, base + ds + i * LDIR, Ldir(i + 3, files[i].name))
    && (files[i].data != [] ==> Stands(s, base + at, files[i].data))
  }

  lemma Bounded(size: nat, files: seq<File>, wanted: Option<nat>, i: nat)
    requires size <= U32 && Accepted(size, files, wanted) && i < |files|
    ensures files[i].data == [] ==> RoundUp(|files[i].data|) == 0
    ensures files[i].data != [] ==> Extent(files, DataStart(|files|, wanted) + RootAlloc(|files|), i) + RoundUp(|files[i].data|) <= size
    ensures |files[i].name| <= NAMELEN
  {
    RoundUpFacts(|files[i].data|);
    assert NameFine(files[i].name) && FitsAt(files, DataStart(|files|, wanted) + RootAlloc(|files|), size, i);
  }

  /** Position `q` of the slice belongs to the superblock, a record, a directory entry or a file. */
  ghost predicate Used(files: seq<File>, wanted: Option<nat>, q: nat) {
    q < 28 || SUPERSIZE <= q < SUPERSIZE + 48 || exists i: nat :: UsedBy(files, wanted, i, q)
  }

  ghost predicate UsedBy(files: seq<File>, wanted: Option<nat>, i: nat, q: nat) {
    var ds := DataStart(|files|, wanted);
    && i < |files|
    && (|| SUPERSIZE + (i + 1) * SLOT <= q < SUPERSIZE + (i + 1) * SLOT + 48
        || ds + i * LDIR <= q < ds + i * LDIR + LDIR
        || (var at := Extent(files, ds + RootAlloc(|files|), i); at <= q < at + |files[i].data|))
  }

  /** Everything else in the slice is zero: free inode slots, and the ends of sectors. */
  ghost predicate Blank(s: seq<byte>, base: nat, size: nat, files: seq<File>, wanted: Option<nat>) {
    base + size <= |s| && forall q: nat | q < size && !Used(files, wanted, q) :: s[base + q] == 0
  }

  lemma BlankKept(s: seq<byte>, base: nat, size: nat, files: seq<File>, wanted: Option<nat>, p: nat, e: seq<byte>)
    requires Blank(s, base, size, files, wanted) && base + p + |e| <= |s|
    requires forall q: nat | p <= q < p + |e| :: Used(files, wanted, q)
    ensures Blank(Splice(s, base + p, e), base, size, files, wanted)
  {
    hide Used, Splice;
    var t := Splice(s, base + p, e);
    forall q: nat | q < size && !Used(files, wanted, q) ensures t[base + q] == 0 {
      assert s[base + q] == 0;
    }
  }

  lemma OwnUsed(size: nat, files: seq<File>, wanted: Option<nat>, i: nat, p: nat, n: nat)
    requires i < |files| && OwnPlace(size, files, wanted, i, p, n)
    ensures forall q: nat | p <= q < p + n :: Used(files, wanted, q)
  {
    hide DataStart, RootAlloc, Extent;
    forall q: nat | p <= q < p + n ensures Used(files, wanted, q) { assert UsedBy(files, wanted, i, q); }
  }

  /** A formatted slice. */
  ghost predicate Formatted(s: seq<byte>, base: nat, size: nat, files: seq<File>, wanted: Option<nat>, time: nat)
    requires Narrow(size, files, time) && Accepted(size, files, wanted)
  {
    AreaFacts(size, files, wanted);
    var ds := DataStart(|files|, wanted);
    && Blank(s, base, size, files, wanted)
    && Stands(s, base, Super(ds, size - 1)) && Stands(s, base + SUPERSIZE, RootRecord(|files|, ds, time))
    && forall i | 0 <= i < |files| :: FileStored(s, base, size, files, wanted, time, i)
  }

  lemma AreaFacts(size: nat, files: seq<File>, wanted: Option<nat>)
    requires Accepted(size, files, wanted)
    ensures var ds := DataStart(|files|, wanted);
      && SUPERSIZE + (|files| + 1) * SLOT <= ds && ds % SECTOR == 0 && (ds + RootAlloc(|files|)) % SECTOR == 0
      && |files| * LDIR <= RootAlloc(|files|) && ds + RootAlloc(|files|) <= size && SECTOR <= RootAlloc(|files|)
  {
    hide RoundUp, NamesFine, Fit;
    var used := SUPERSIZE + Slots(|files|, wanted) * SLOT;
    RoundUpFacts(used);
    RoundUpFacts(Max(|files| * LDIR, 1));
    SectorSum(RoundUp(used), RoundUp(Max(|files| * LDIR, 1)));
    SectorSum(RoundUp(used), SECTOR);
  }

  lemma SectorSum(a: nat, b: nat)
    requires a % SECTOR == 0 && b % SECTOR == 0
    ensures (a + b) % SECTOR == 0
  {
  }

  /** The writes of file `i` do not touch file `j` or the two leading records. */
  lemma Apart(size: nat, files: seq<File>, wanted: Option<nat>, i: nat, j: nat)
    requires Accepted(size, files, wanted) && j < i < |files|
    ensures var ds := DataStart(|files|, wanted); var from := ds + RootAlloc(|files|);
      && ds + j * LDIR + LDIR <= ds + i * LDIR && SUPERSIZE + (i + 1) * SLOT + SLOT <= ds
      && SUPERSIZE + (j + 1) * SLOT + SLOT <= SUPERSIZE + (i + 1) * SLOT
      && ds + i * LDIR + LDIR <= from <= Extent(files, from, j) && Extent(files, from, j) + |files[j].data| <= Extent(files, from, i)
  {
    hide RoundUp, Accepted, DataStart, RootAlloc;
    AreaFacts(size, files, wanted);
    ExtentFacts(files, DataStart(|files|, wanted) + RootAlloc(|files|), j, i);
  }

  /** Writing file `i` keeps what was written before it. */
  lemma StoredKept(s: seq<byte>, t: seq<byte>, base: nat, size: nat, files: seq<File>, wanted: Option<nat>, time: nat, j: nat, p: nat, e: seq<byte>)
    requires Narrow(size, files, time) && Accepted(size, files, wanted) && j < |files| && FileStored(s, base, size, files, wanted, time, j)
    requires p + |e| <= |s| && t == Splice(s, p, e)
    requires var ds := DataStart(|files|, wanted); var at := Extent(files, ds + RootAlloc(|files|), j);
      && (base + SUPERSIZE + (j + 1) * SLOT + 48 <= p || p + |e| <= base + SUPERSIZE + (j + 1) * SLOT)
      && (base + ds + j * LDIR + LDIR <= p || p + |e| <= base + ds + j * LDIR)
      && (base + at + |files[j].data| <= p || p + |e| <= base + at)
    ensures FileStored(t, base, size, files, wanted, time, j)
  {
    hide Stands, Splice, Accepted, DataStart, RootAlloc, RecordOf, Ldir, Extent;
    var ds := DataStart(|files|, wanted);
    var at := Extent(files, ds + RootAlloc(|files|), j);
    Bounded(size, files, wanted, j);
    StandsKept(s, base + SUPERSIZE + (j + 1) * SLOT, RecordOf(size, files, wanted, time, j), p, e);
    StandsKept(s, base + ds + j * LDIR, Ldir(j + 3, files[j].name), p, e);
    if files[j].data != [] { StandsKept(s, base + at, files[j].data, p, e); }
  }

  /** All that stands in the slice before file `i` is written. */
  ghost predicate Ready(s: seq<byte>, base: nat, size: nat, files: seq<File>, wanted: Option<nat>, time: nat, i: nat)
    requires Narrow(size, files, time) && Accepted(size, files, wanted) && i <= |files|
  {
    AreaFacts(size, files, wanted);
    var ds := DataStart(|files|, wanted);
    && Blank(s, base, size, files, wanted)
    && Stands(s, base, Super(ds, size - 1)) && Stands(s, base + SUPERSIZE, RootRecord(|files|, ds, time))
    && forall j | 0 <= j < i :: FileStored(s, base, size, files, wanted, time, j)
  }

  /** A write into file `i`'s own places. */
  ghost predicate OwnPlace(size: nat, files: seq<File>, wanted: Option<nat>, i: nat, p: nat, n: nat)
    requires i < |files|
  {
    var ds := DataStart(|files|, wanted);
    var at := Extent(files, ds + RootAlloc(|files|), i);
    || (p == SUPERSIZE + (i + 1) * SLOT && n == 48)
    || (p == ds + i * LDIR && n == LDIR)
    || (p == at && n == |files[i].data| && n != 0)
  }

  lemma OwnPlaceInside(size: nat, files: seq<File>, wanted: Option<nat>, i: nat, p: nat, n: nat)
    requires Accepted(size, files, wanted) && i < |files| && OwnPlace(size, files, wanted, i, p, n)
    ensures SUPERSIZE + SLOT <= p && p + n <= size
  {
    hide RoundUp, DataStart, RootAlloc, NamesFine;
    AreaFacts(size, files, wanted);
    ExtentFacts(files, DataStart(|files|, wanted) + RootAlloc(|files|), i, i);
    assert FitsAt(files, DataStart(|files|, wanted) + RootAlloc(|files|), size, i);
    RoundUpFacts(|files[i].data|);
  }

  lemma ReadyKept(s: seq<byte>, base: nat, size: nat, files: seq<File>, wanted: Option<nat>, time: nat, i: nat, p: nat, e: seq<byte>)
    requires Narrow(size, files, time) && Accepted(size, files, wanted) && i < |files| && Ready(s, base, size, files, wanted, time, i)
    requires OwnPlace(size, files, wanted, i, p, |e|) && base + p + |e| <= |s|
    ensures Ready(Splice(s, base + p, e), base, size, files, wanted, time, i)
  {
    hide Stands, Splice, Accepted, DataStart, RootAlloc, FileStored, Super, RootRecord, Extent, Used, Blank;
    AreaFacts(size, files, wanted);
    OwnPlaceInside(size, files, wanted, i, p, |e|);
    OwnUsed(size, files, wanted, i, p, |e|);
    BlankKept(s, base, size, files, wanted, p, e);
    var ds := DataStart(|files|, wanted);
    StandsKept(s, base, Super(ds, size - 1), base + p, e);
    StandsKept(s, base + SUPERSIZE, RootRecord(|files|, ds, time), base + p, e);
    var t := Splice(s, base + p, e);
    forall j | 0 <= j < i ensures FileStored(t, base, size, files, wanted, time, j) {
      Apart(size, files, wanted, i, j);
      ExtentFacts(files, ds + RootAlloc(|files|), i, i);
      StoredKept(s, t, base, size, files, wanted, time, j, base + p, e);
    }
  }

  /** Only the slice has changed. */
  ghost predicate Outside(s: seq<byte>, t: seq<byte>, base: nat, size: nat) {
    |t| == |s| && forall i | 0 <= i < |s| && !(base <= i < base + size) :: t[i] == s[i]
  }

  lemma OutsideSplice(s: seq<byte>, base: nat, size: nat, p: nat, e: seq<byte>)
    requires base + p + |e| <= |s| && p + |e| <= size
    ensures Outside(s, Splice(s, base + p, e), base, size)
  {
    hide Splice;
  }

  /** One write into file `i`'s own places. */
  method PutOwn(out: array<byte>, base: nat, size: nat, files: seq<File>, wanted: Option<nat>, ghost time: nat, i: nat, p: nat, e: seq<byte>)
    requires Narrow(size, files, time) && Accepted(size, files, wanted) && i < |files|
    requires Ready(out[..], base, size, files, wanted, time, i) && OwnPlace(size, files, wanted, i, p, |e|)
    modifies out
    ensures Ready(out[..], base, size, files, wanted, time, i) && Outside(old(out[..]), out[..], base, size)
    ensures Stands(out[..], base + p, e)
    ensures forall at: nat, d: seq<byte> | Stands(old(out[..]), at, d) && (at + |d| <= base + p || base + p + |e| <= at) :: Stands(out[..], at, d)
  {
    hide Stands, Accepted, Ready, OwnPlace, Splice, Outside;
    ghost var s := out[..];
    ReadyLength(s, base, size, files, wanted, time, i);
    OwnPlaceInside(size, files, wanted, i, p, |e|);
    ReadyKept(s, base, size, files, wanted, time, i, p, e);
    StandsNew(s, base + p, e);
    OutsideSplice(s, base, size, p, e);
    PutBytes(out, base + p, e);
    forall at: nat, d: seq<byte> | Stands(s, at, d) && (at + |d| <= base + p || base + p + |e| <= at) ensures Stands(out[..], at, d) {
      StandsKept(s, at, d, base + p, e);
    }
  }

  /** Writes the record, the bytes and the directory entry of file `i`. */
  method WriteOne(out: array<byte>, base: nat, size: nat, files: seq<File>, wanted: Option<nat>, time: nat, i: nat, start: nat)
    requires Narrow(size, files, time) && Accepted(size, files, wanted) && i < |files|
    requires Ready(out[..], base, size, files, wanted, time, i)
    requires start == Extent(files, DataStart(|files|, wanted) + RootAlloc(|files|), i)
    modifies out
    ensures Ready(out[..], base, size, files, wanted, time, i + 1) && Outside(old(out[..]), out[..], base, size)
  {
    hide Stands, Accepted, DataStart, RootAlloc, FileStored, Extent, FileRecord, Ldir, Ready, RoundUp, Outside;
    Bounded(size, files, wanted, i);
    OwnApart(size, files, wanted, i);
    var ds := DataStart(|files|, wanted);
    var data := files[i].data;
    ghost var s := out[..];
    OutsideSame(s, base, size);
    if data != [] {
      PutOwn(out, base, size, files, wanted, time, i, start, data);
    }
    ghost var s1 := out[..];
    var record := FileRecord(i, data, if data == [] then 0 else start, time);
    PutOwn(out, base, size, files, wanted, time, i, SUPERSIZE + (i + 1) * SLOT, record);
    ghost var s2 := out[..];
    OutsideBoth(s, s1, s2, base, size);
    PutOwn(out, base, size, files, wanted, time, i, ds + i * LDIR, Ldir(i + 3, files[i].name));
    OutsideBoth(s, s2, out[..], base, size);
    StoredIs(out[..], base, size, files, wanted, time, i);
    OneMore(out[..], base, size, files, wanted, time, i);
  }

  lemma OutsideSame(s: seq<byte>, base: nat, size: nat)
    ensures Outside(s, s, base, size)
  {
  }

  lemma OutsideBoth(s: seq<byte>, t: seq<byte>, u: seq<byte>, base: nat, size: nat)
    requires Outside(s, t, base, size) && Outside(t, u, base, size)
    ensures Outside(s, u, base, size)
  {
  }

  lemma StoredIs(s: seq<byte>, base: nat, size: nat, files: seq<File>, wanted: Option<nat>, time: nat, i: nat)
    requires Narrow(size, files, time) && Accepted(size, files, wanted) && i < |files|
    requires var ds := DataStart(|files|, wanted); var at := Extent(files, ds + RootAlloc(|files|), i);
      && |files[i].name| <= NAMELEN
      && Stands(s, base + SUPERSIZE + (i + 1) * SLOT, RecordOf(size, files, wanted, time, i))
      && Stands(s, base + ds + i * LDIR, Ldir(i + 3, files[i].name))
      && (files[i].data != [] ==> Stands(s, base + at, files[i].data))
    ensures FileStored(s, base, size, files, wanted, time, i)
  {
    hide Stands, Accepted, DataStart, RootAlloc, Extent, RecordOf, Ldir, RoundUp;
  }

  lemma ReadyLength(s: seq<byte>, base: nat, size: nat, files: seq<File>, wanted: Option<nat>, time: nat, i: nat)
    requires Narrow(size, files, time) && Accepted(size, files, wanted) && i <= |files| && Ready(s, base, size, files, wanted, time, i)
    ensures base + size <= |s|
  {
    hide FileStored, Stands, Used;
  }

  lemma OwnApart(size: nat, files: seq<File>, wanted: Option<nat>, i: nat)
    requires Accepted(size, files, wanted) && i < |files|
    ensures var ds := DataStart(|files|, wanted);
      SUPERSIZE + (i + 1) * SLOT + SLOT <= ds && ds + i * LDIR + LDIR <= Extent(files, ds + RootAlloc(|files|), i)
  {
    hide RoundUp, Accepted, DataStart, RootAlloc;
    AreaFacts(size, files, wanted);
    ExtentFacts(files, DataStart(|files|, wanted) + RootAlloc(|files|), i, i);
  }

  lemma OneMore(s: seq<byte>, base: nat, size: nat, files: seq<File>, wanted: Option<nat>, time: nat, i: nat)
    requires Narrow(size, files, time) && Accepted(size, files, wanted) && i < |files|
    requires Ready(s, base, size, files, wanted, time, i) && FileStored(s, base, size, files, wanted, time, i)
    ensures Ready(s, base, size, files, wanted, time, i + 1)
  {
    hide Stands, FileStored, Accepted, Blank;
  }

  lemma LeadKept(s: seq<byte>, base: nat, size: nat, files: seq<File>, wanted: Option<nat>, time: nat)
    requires Narrow(size, files, time) && Accepted(size, files, wanted) && Stands(s, base, Zeros(size))
    ensures var ds := DataStart(|files|, wanted);
      && ds < U32 && 0 < size && SUPERSIZE <= ds && ds + RootAlloc(|files|) <= U32 && SUPERSIZE + SLOT <= size
      && var t := Splice(s, base, Super(ds, size - 1));
         Ready(Splice(t, base + SUPERSIZE, RootRecord(|files|, ds, time)), base, size, files, wanted, time, 0)
  {
    hide Stands, Accepted, Splice, Super, RootRecord, FileStored, DataStart, RootAlloc, Blank;
    AreaFacts(size, files, wanted);
    var ds := DataStart(|files|, wanted);
    var a, b := Super(ds, size - 1), RootRecord(|files|, ds, time);
    StandsIs(s, base, Zeros(size));
    var t := Splice(s, base, a);
    ZerosBlank(s, base, size, files, wanted);
    LeadUsed(files, wanted);
    BlankKept(s, base, size, files, wanted, 0, a);
    BlankKept(t, base, size, files, wanted, SUPERSIZE, b);
    StandsNew(s, base, a);
    StandsKept(t, base, a, base + SUPERSIZE, b);
    StandsNew(t, base + SUPERSIZE, b);
  }

  lemma ZerosBlank(s: seq<byte>, base: nat, size: nat, files: seq<File>, wanted: Option<nat>)
    requires Stands(s, base, Zeros(size))
    ensures Blank(s, base, size, files, wanted)
  {
    hide Used;
    forall q: nat | q < size && !Used(files, wanted, q) ensures s[base + q] == 0 {
      assert s[base..base + size][q] == s[base + q];
    }
  }

  lemma LeadUsed(files: seq<File>, wanted: Option<nat>)
    ensures forall q: nat | q < 28 || SUPERSIZE <= q < SUPERSIZE + 48 :: Used(files, wanted, q)
  {
    hide UsedBy;
  }

  /** `format`: writes the slice `[base, base + size)` of `out`, and nothing else. */
  method FormatBfs(out: array<byte>, base: nat, size: nat, files: seq<File>, wanted: Option<nat>, time: nat) returns (r: Result<()>)
    requires base + size <= out.Length && Narrow(size, files, time)
    modifies out
    ensures r.Ok? <==> Accepted(size, files, wanted)
    ensures r.Ok? ==> Formatted(out[..], base, size, files, wanted, time) && Outside(old(out[..]), out[..], base, size)
    ensures r.Err? ==> out[..] == old(out[..])
  {
    hide Stands, NamesFine, Fit, FileStored, Super, RootRecord, DataStart, RootAlloc, Ready, Outside, Splice;
    ghost var s := out[..];
    if size < SUPERSIZE + SECTOR { return Err; }
    var named := CheckNames(files);
    if !named { return Err; }
    var ds := DataStart(|files|, wanted);
    if ds + RootAlloc(|files|) > size { return Err; }
    var starts := PlaceFiles(files, ds + RootAlloc(|files|), size);
    if starts.None? { return Err; }
    PutBytes(out, base, Zeros(size));
    StandsNew(s, base, Zeros(size));
    OutsideSplice(s, base, size, 0, Zeros(size));
    ghost var s1 := out[..];
    LeadKept(s1, base, size, files, wanted, time);
    PutBytes(out, base, Super(ds, size - 1));
    OutsideSplice(s1, base, size, 0, Super(ds, size - 1));
    ghost var s2 := out[..];
    PutBytes(out, base + SUPERSIZE, RootRecord(|files|, ds, time));
    OutsideSplice(s2, base, size, SUPERSIZE, RootRecord(|files|, ds, time));
    OutsideBoth(s, s1, s2, base, size);
    OutsideBoth(s, s2, out[..], base, size);
    WriteAll(out, base, size, files, wanted, time, starts.value);
    ghost var s3 := out[..];
    OutsideBoth(s, Splice(s2, base + SUPERSIZE, RootRecord(|files|, ds, time)), s3, base, size);
    AllReady(s3, base, size, files, wanted, time);
    return Ok(());
  }

  /** The file loop of `format`. */
  method WriteAll(out: array<byte>, base: nat, size: nat, files: seq<File>, wanted: Option<nat>, time: nat, starts: seq<nat>)
    requires Narrow(size, files, time) && Accepted(size, files, wanted) && Ready(out[..], base, size, files, wanted, time, 0)
    requires |starts| == |files|
    requires forall i | 0 <= i < |files| :: starts[i] == Extent(files, DataStart(|files|, wanted) + RootAlloc(|files|), i)
    modifies out
    ensures Ready(out[..], base, size, files, wanted, time, |files|) && Outside(old(out[..]), out[..], base, size)
  {
    hide Accepted, DataStart, RootAlloc, Ready, Outside, Extent;
    ghost var s := out[..];
    OutsideSame(s, base, size);
    for i := 0 to |files|
      invariant Ready(out[..], base, size, files, wanted, time, i) && Outside(s, out[..], base, size)
    {
      ghost var t := out[..];
      WriteOne(out, base, size, files, wanted, time, i, starts[i]);
      OutsideBoth(s, t, out[..], base, size);
    }
  }

  lemma AllReady(s: seq<byte>, base: nat, size: nat, files: seq<File>, wanted: Option<nat>, time: nat)
    requires Narrow(size, files, time) && Accepted(size, files, wanted) && Ready(s, base, size, files, wanted, time, |files|)
    ensures Formatted(s, base, size, files, wanted, time)
  {
    hide Stands, FileStored, Accepted, Super, RootRecord, Blank;
  }

  // --- the layout in plain terms ---------------------------------------------

  /** The areas follow each other, each as short as whole sectors allow: slots for the root and every file, and as many
      as asked for (sixteen by default), the root directory, the files. */
  lemma Compact(files: seq<File>, wanted: Option<nat>)
    ensures var n, ds := |files|, DataStart(|files|, wanted);
      var slots := Max(n + 1, if wanted.None? then 16 else wanted.value);
      && ds % SECTOR == 0 && SUPERSIZE + slots * SLOT <= ds < SUPERSIZE + slots * SLOT + SECTOR
      && RootAlloc(n) % SECTOR == 0 && n * LDIR <= RootAlloc(n) && (RootAlloc(n) == SECTOR || RootAlloc(n) < n * LDIR + SECTOR)
    ensures forall from: nat :: Extent(files, from, 0) == from
    ensures forall from: nat, i: nat | i < |files| :: JustHolds(Extent(files, from, i), |files[i].data|, Extent(files, from, i + 1))
  {
    hide RoundUp;
    RoundUpFacts(SUPERSIZE + Slots(|files|, wanted) * SLOT);
    RoundUpFacts(Max(|files| * LDIR, 1));
    forall from: nat, i: nat | i < |files| ensures JustHolds(Extent(files, from, i), |files[i].data|, Extent(files, from, i + 1)) {
      RoundUpFacts(|files[i].data|);
    }
  }

  /** From `a` to `b` there are just enough sectors for `n` bytes. */
  ghost predicate JustHolds(a: nat, n: nat, b: nat) { a + n <= b < a + n + SECTOR && (b - a) % SECTOR == 0 }

  /** The fields of an inode record. */
  ghost predicate RecordAt(s: seq<byte>, at: nat, ino: nat, sblock: nat, eblock: nat, eoffset: nat, kind: nat, mode: nat, nlink: nat, time: nat) {
    && at + 48 <= |s| && U16At(s, at) == ino && U32At(s, at + 4) == sblock && U32At(s, at + 8) == eblock && U32At(s, at + 12) == eoffset
    && U32At(s, at + 16) == kind && U32At(s, at + 20) == mode && U32At(s, at + 32) == nlink
    && U32At(s, at + 36) == time && U32At(s, at + 40) == time && U32At(s, at + 44) == time
  }

  lemma RecordStands(s: seq<byte>, at: nat, ino: nat, sblock: nat, eblock: nat, eoffset: nat, kind: nat, mode: nat, nlink: nat, time: nat)
    requires ino < U16 && sblock < U32 && eblock < U32 && eoffset < U32 && kind < U32 && mode < U32 && nlink < U32 && time < U32
    requires Stands(s, at, Dirent(ino, sblock, eblock, eoffset, kind, mode, nlink, time))
    ensures RecordAt(s, at, ino, sblock, eblock, eoffset, kind, mode, nlink, time)
  {
    hide Dirent, U16At, U32At, Stands;
    var d := Dirent(ino, sblock, eblock, eoffset, kind, mode, nlink, time);
    DirentFields(ino, sblock, eblock, eoffset, kind, mode, nlink, time);
    StandsIs(s, at, d);
    FieldAt(s, at, d, 0);
    FieldAt(s, at, d, 4);
    FieldAt(s, at, d, 8);
    FieldAt(s, at, d, 12);
    FieldAt(s, at, d, 16);
    FieldAt(s, at, d, 20);
    FieldAt(s, at, d, 32);
    FieldAt(s, at, d, 36);
    FieldAt(s, at, d, 40);
    FieldAt(s, at, d, 44);
  }

  /** The records of a formatted slice: the root a directory of all entries, file `i` the regular file from the sector it
      starts in to the sector and the byte it ends at, or all zero when empty. */
  lemma RecordsAre(s: seq<byte>, base: nat, size: nat, files: seq<File>, wanted: Option<nat>, time: nat, i: nat)
    requires Narrow(size, files, time) && Accepted(size, files, wanted) && Formatted(s, base, size, files, wanted, time) && i < |files|
    ensures var at, n := Extent(files, DataStart(|files|, wanted) + RootAlloc(|files|), i), |files[i].data|;
      var last := at + n - 1;
      at % SECTOR == 0 &&
      if n == 0 then RecordAt(s, base + SUPERSIZE + (i + 1) * SLOT, i + 3, 0, 0, 0, VREG, 0x1A4, 1, time)
      else RecordAt(s, base + SUPERSIZE + (i + 1) * SLOT, i + 3, at / SECTOR, last / SECTOR, last, VREG, 0x1A4, 1, time)
  {
    hide Stands, Accepted, Super, RootRecord, DataStart, RootAlloc, Extent, Dirent, RoundUp, Blank, RecordAt;
    AreaFacts(size, files, wanted);
    var ds := DataStart(|files|, wanted);
    Bounded(size, files, wanted, i);
    ExtentFacts(files, ds + RootAlloc(|files|), i, i);
    assert FileStored(s, base, size, files, wanted, time, i);
    var at, n := Extent(files, ds + RootAlloc(|files|), i), |files[i].data|;
    var slot := base + SUPERSIZE + (i + 1) * SLOT;
    if n == 0 {
      RecordStands(s, slot, i + 3, 0, 0, 0, VREG, 0x1A4, 1, time);
    } else {
      RoundUpFacts(n);
      LastSector(at, n, RoundUp(n));
      RecordStands(s, slot, i + 3, at / SECTOR, (at + RoundUp(n)) / SECTOR - 1, at + n - 1, VREG, 0x1A4, 1, time);
    }
  }

  lemma LastSector(at: nat, n: nat, alloc: nat)
    requires at % SECTOR == 0 && alloc % SECTOR == 0 && 0 < n <= alloc < n + SECTOR
    ensures (at + alloc) / SECTOR - 1 == (at + n - 1) / SECTOR
  {
  }

  lemma RootRecordIs(s: seq<byte>, base: nat, size: nat, files: seq<File>, wanted: Option<nat>, time: nat)
    requires Narrow(size, files, time) && Accepted(size, files, wanted) && Formatted(s, base, size, files, wanted, time)
    ensures var ds, n := DataStart(|files|, wanted), |files|;
      && ds % SECTOR == 0 && 0 < ds
      && RecordAt(s, base + SUPERSIZE, ROOTINO, ds / SECTOR, (ds + RootAlloc(n) - 1) / SECTOR, ds + n * LDIR - 1, VDIR, 0x1ED, 2, time)
    ensures forall k: nat | k < 4 :: base + 12 + 4 * k + 4 <= |s| && U32At(s, base + 12 + 4 * k) == 0xFFFF_FFFF
  {
    hide Stands, Accepted, Super, DataStart, RootAlloc, Dirent, FileStored, Blank, RecordAt;
    AreaFacts(size, files, wanted);
    var ds := DataStart(|files|, wanted);
    LastSector(ds, RootAlloc(|files|), RootAlloc(|files|));
    RecordStands(s, base + SUPERSIZE, ROOTINO, ds / SECTOR, (ds + RootAlloc(|files|)) / SECTOR - 1, ds + |files| * LDIR - 1, VDIR, 0x1ED, 2, time);
    SanityWords(ds, size - 1);
    var d := Super(ds, size - 1);
    StandsIs(s, base, d);
    forall k: nat | k < 4 ensures base + 12 + 4 * k + 4 <= |s| && U32At(s, base + 12 + 4 * k) == 0xFFFF_FFFF {
      FieldAt(s, base, d, 12 + 4 * k);
    }
  }

  lemma SanityWords(dataStart: nat, dataEnd: nat)
    requires dataStart < U32 && dataEnd < U32
    ensures forall k: nat | k < 4 :: U32At(Super(dataStart, dataEnd), 12 + 4 * k) == 0xFFFF_FFFF
  {
    hide Le32;
    var d := Super(dataStart, dataEnd);
    var m := Le32(0xFFFF_FFFF);
    assert d[12..16] == m && d[16..20] == m && d[20..24] == m && d[24..28] == m;
    FieldAt(d, 12, m, 0);
    FieldAt(d, 16, m, 0);
    FieldAt(d, 20, m, 0);
    FieldAt(d, 24, m, 0);
  }

  // --- reading ---------------------------------------------------------------

  /** `detect_at_start`. */
  function Detect(s: seq<byte>, base: nat): Option<Volume> {
    if base + SUPERSIZE > |s| || U32At(s, base) != MAGIC then None
    else
      var dataStart, dataEnd := U32At(s, base + 4), U32At(s, base + 8);
      if dataStart < SUPERSIZE || dataEnd < dataStart then None else Some(Volume(base, dataStart, dataEnd))
  }

  /** `read_inode`: start block and end offset of an inode whose slot names it. */
  function ReadInode(s: seq<byte>, v: Volume, ino: nat): Option<(nat, nat)> {
    if ino < ROOTINO then None
    else
      var at := v.start + SUPERSIZE + (ino - ROOTINO) * SLOT;
      if at + SLOT > |s| || U16At(s, at) != ino then None else Some((U32At(s, at + 4), U32At(s, at + 12)))
  }

  /** `inode_size`. */
  function InodeSize(sblock: nat, eoffset: nat): nat {
    if sblock == 0 || eoffset < sblock * SECTOR then 0 else eoffset - sblock * SECTOR + 1
  }

  /** The bytes before the first zero. */
  function Cut(raw: seq<byte>): (r: seq<byte>)
    ensures r <= raw && 0 !in r && (|r| < |raw| ==> raw[|r|] == 0)
  {
    if raw == [] || raw[0] == 0 then [] else [raw[0]] + Cut(raw[1..])
  }

  function ListedAt(s: seq<byte>, v: Volume, at: nat): seq<Listed>
    requires at + LDIR <= |s|
  {
    var ino := U16At(s, at);
    if ino == 0 then []
    else
      var found := ReadInode(s, v, ino);
      [Listed(Cut(s[at + 2..at + LDIR]), ino, if found.None? then 0 else InodeSize(found.value.0, found.value.1))]
  }

  /** The entries of the directory bytes from `at` on. */
  ghost function RootFrom(s: seq<byte>, v: Volume, at: nat, left: nat): seq<Listed>
    decreases left
  {
    if left < LDIR || at + LDIR > |s| then [] else ListedAt(s, v, at) + RootFrom(s, v, at + LDIR, left - LDIR)
  }

  ghost function Root(s: seq<byte>, v: Volume): seq<Listed> {
    var found := ReadInode(s, v, ROOTINO);
    if found.None? then []
    else RootFrom(s, v, v.start + found.value.0 * SECTOR, InodeSize(found.value.0, found.value.1))
  }

  /** `list_root`. */
  method ListRoot(s: seq<byte>, v: Volume) returns (entries: seq<Listed>)
    ensures entries == Root(s, v)
  {
    hide ListedAt, InodeSize, ReadInode;
    entries := [];
    var found := ReadInode(s, v, ROOTINO);
    if found.None? { return; }
    var start, len := v.start + found.value.0 * SECTOR, InodeSize(found.value.0, found.value.1);
    var offset := 0;
    while offset + LDIR <= len
      invariant offset <= len && entries + RootFrom(s, v, start + offset, len - offset) == RootFrom(s, v, start, len)
    {
      var at := start + offset;
      if at + LDIR > |s| { break; }
      entries := entries + ListedAt(s, v, at);
      offset := offset + LDIR;
    }
  }

  /** `read_file`: the bytes of the first entry with that name. */
  method ReadFile(s: seq<byte>, v: Volume, name: Name) returns (r: Option<seq<byte>>)
    ensures forall i | 0 <= i < |Root(s, v)| && Root(s, v)[i].name == name && (forall j | 0 <= j < i :: Root(s, v)[j].name != name) ::
              r == FileBytes(s, v, Root(s, v)[i].ino)
    ensures (forall i | 0 <= i < |Root(s, v)| :: Root(s, v)[i].name != name) ==> r == None
  {
    hide Root;
    var entries := ListRoot(s, v);
    for i := 0 to |entries|
      invariant forall j | 0 <= j < i :: entries[j].name != name
    {
      if entries[i].name == name {
        return FileBytes(s, v, entries[i].ino);
      }
    }
    return None;
  }

  function FileBytes(s: seq<byte>, v: Volume, ino: nat): Option<seq<byte>> {
    var found := ReadInode(s, v, ino);
    if found.None? then None
    else
      var start, size := v.start + found.value.0 * SECTOR, InodeSize(found.value.0, found.value.1);
      if start + size > |s| then None else Some(s[start..start + size])
  }

  // --- the round trip --------------------------------------------------------

  lemma SuperFields(dataStart: nat, dataEnd: nat)
    requires dataStart < U32 && dataEnd < U32
    ensures var d := Super(dataStart, dataEnd); U32At(d, 0) == MAGIC && U32At(d, 4) == dataStart && U32At(d, 8) == dataEnd
  {
    hide Le32;
    var d := Super(dataStart, dataEnd);
    assert d[0..4] == Le32(MAGIC) && d[4..8] == Le32(dataStart) && d[8..12] == Le32(dataEnd);
    FieldAt(d, 0, Le32(MAGIC), 0);
    FieldAt(d, 4, Le32(dataStart), 0);
    FieldAt(d, 8, Le32(dataEnd), 0);
  }

  /** The volume a formatted slice is detected as. */
  ghost function SliceOf(base: nat, size: nat, files: seq<File>, wanted: Option<nat>): Volume
    requires 0 < size
  {
    Volume(base, DataStart(|files|, wanted), size - 1)
  }

  lemma Detected(s: seq<byte>, base: nat, size: nat, files: seq<File>, wanted: Option<nat>, time: nat)
    requires Narrow(size, files, time) && Accepted(size, files, wanted) && Formatted(s, base, size, files, wanted, time)
    ensures 0 < size && Detect(s, base) == Some(SliceOf(base, size, files, wanted))
  {
    hide Accepted, FileStored, Stands, Super, RootRecord, DataStart, RootAlloc;
    AreaFacts(size, files, wanted);
    var ds := DataStart(|files|, wanted);
    SuperFields(ds, size - 1);
    FieldAt(s, base, Super(ds, size - 1), 0);
    FieldAt(s, base, Super(ds, size - 1), 4);
    FieldAt(s, base, Super(ds, size - 1), 8);
  }

  /** Nothing without the magic number is taken for a boot slice, and no bounds outside their order. */
  lemma OnlyMagic(s: seq<byte>, base: nat)
    requires Detect(s, base).Some?
    ensures base + SUPERSIZE <= |s| && s[base..base + 4] == [0xCE, 0xFA, 0xAD, 0x1B]
    ensures var v := Detect(s, base).value; v.start == base && SUPERSIZE <= v.dataStart <= v.dataEnd
  {
  }

  /** The only inodes of a formatted slice are the root and one for each file: every other slot is free. */
  lemma OnlyInodes(s: seq<byte>, base: nat, size: nat, files: seq<File>, wanted: Option<nat>, time: nat, ino: nat)
    requires Narrow(size, files, time) && Accepted(size, files, wanted) && Formatted(s, base, size, files, wanted, time)
    requires ino < ROOTINO || SUPERSIZE + (ino - ROOTINO) * SLOT + SLOT <= DataStart(|files|, wanted)
    ensures 0 < size && (ReadInode(s, SliceOf(base, size, files, wanted), ino).Some? ==> ROOTINO <= ino <= |files| + ROOTINO)
  {
    hide Stands, Accepted, FileStored, Super, RootRecord, DataStart, RootAlloc;
    AreaFacts(size, files, wanted);
    if |files| + ROOTINO < ino {
      var at := SUPERSIZE + (ino - ROOTINO) * SLOT;
      FreeSlot(size, files, wanted, ino);
      assert s[base + at] == 0 && s[base + (at + 1)] == 0;
    }
  }

  lemma FreeSlot(size: nat, files: seq<File>, wanted: Option<nat>, ino: nat)
    requires Accepted(size, files, wanted) && |files| + ROOTINO < ino && SUPERSIZE + (ino - ROOTINO) * SLOT + SLOT <= DataStart(|files|, wanted)
    ensures var at := SUPERSIZE + (ino - ROOTINO) * SLOT; !Used(files, wanted, at) && !Used(files, wanted, at + 1) && at + SLOT <= size
  {
    hide Accepted, DataStart, RootAlloc, Extent, RoundUp;
    AreaFacts(size, files, wanted);
    var from := DataStart(|files|, wanted) + RootAlloc(|files|);
    forall i: nat | i < |files| ensures from <= Extent(files, from, i) { ExtentFacts(files, from, i, i); }
  }

  lemma RecordRead(s: seq<byte>, v: Volume, ino: nat, sblock: nat, eblock: nat, eoffset: nat, kind: nat, mode: nat, nlink: nat, time: nat)
    requires ROOTINO <= ino < U16 && sblock < U32 && eblock < U32 && eoffset < U32 && kind < U32 && mode < U32 && nlink < U32 && time < U32
    requires Stands(s, v.start + SUPERSIZE + (ino - ROOTINO) * SLOT, Dirent(ino, sblock, eblock, eoffset, kind, mode, nlink, time))
    requires v.start + SUPERSIZE + (ino - ROOTINO) * SLOT + SLOT <= |s|
    ensures ReadInode(s, v, ino) == Some((sblock, eoffset))
  {
    hide Stands, Dirent, U16At, U32At;
    var d := Dirent(ino, sblock, eblock, eoffset, kind, mode, nlink, time);
    var at := v.start + SUPERSIZE + (ino - ROOTINO) * SLOT;
    DirentFields(ino, sblock, eblock, eoffset, kind, mode, nlink, time);
    FieldAt(s, at, d, 0);
    FieldAt(s, at, d, 4);
    FieldAt(s, at, d, 12);
  }

  /** The root inode reads back with the directory's extent. */
  lemma RootRead(s: seq<byte>, base: nat, size: nat, files: seq<File>, wanted: Option<nat>, time: nat)
    requires Narrow(size, files, time) && Accepted(size, files, wanted) && Formatted(s, base, size, files, wanted, time)
    ensures 0 < size
    ensures var v := SliceOf(base, size, files, wanted); var found := ReadInode(s, v, ROOTINO);
      found.Some? && found.value.0 * SECTOR == v.dataStart && InodeSize(found.value.0, found.value.1) == |files| * LDIR
  {
    hide Accepted, FileStored, Stands, Super, DataStart, ReadInode, Dirent, RootAlloc;
    AreaFacts(size, files, wanted);
    var n, ds := |files|, DataStart(|files|, wanted);
    RoundUpFacts(Max(n * LDIR, 1));
    RecordRead(s, SliceOf(base, size, files, wanted), ROOTINO, ds / SECTOR, (ds + RootAlloc(n)) / SECTOR - 1,
               if n * LDIR != 0 then ds + n * LDIR - 1 else ds - 1, VDIR, 0x1ED, 2, time);
  }

  /** A file's inode reads back with its extent, empty files included. */
  lemma FileRead(s: seq<byte>, base: nat, size: nat, files: seq<File>, wanted: Option<nat>, time: nat, i: nat)
    requires Narrow(size, files, time) && Accepted(size, files, wanted) && Formatted(s, base, size, files, wanted, time) && i < |files|
    ensures 0 < size
    ensures var v := SliceOf(base, size, files, wanted); var found := ReadInode(s, v, i + 3);
      found.Some? && InodeSize(found.value.0, found.value.1) == |files[i].data| && FileBytes(s, v, i + 3) == Some(files[i].data)
  {
    hide Accepted, Stands, Super, DataStart, ReadInode, Dirent, RootAlloc, RootRecord, Extent, RoundUp;
    AreaFacts(size, files, wanted);
    Bounded(size, files, wanted, i);
    var from := DataStart(|files|, wanted) + RootAlloc(|files|);
    ExtentFacts(files, from, i, i);
    var at, v := Extent(files, from, i), SliceOf(base, size, files, wanted);
    assert FileStored(s, base, size, files, wanted, time, i);
    RoundUpFacts(|files[i].data|);
    if files[i].data == [] {
      RecordRead(s, v, i + 3, 0, 0, 0, VREG, 0x1A4, 1, time);
      assert s[v.start..v.start] == [];
    } else {
      var end := (at + RoundUp(|files[i].data|)) / SECTOR - 1;
      RecordRead(s, v, i + 3, at / SECTOR, end, at + |files[i].data| - 1, VREG, 0x1A4, 1, time);
      StandsIs(s, base + at, files[i].data);
    }
  }

  lemma StandsIs(s: seq<byte>, at: nat, d: seq<byte>)
    requires Stands(s, at, d)
    ensures at + |d| <= |s| && s[at..at + |d|] == d
  {
  }

  /** A padded name reads back up to its first zero byte. */
  lemma {:induction false} CutPadded(name: Name, n: nat)
    ensures Cut(name + Zeros(n)) == Cut(name)
    ensures Cut(name) == name <==> 0 !in name
    decreases |name|
  {
    if name == [] {
      assert name + Zeros(n) == Zeros(n);
    } else if name[0] != 0 {
      CutPadded(name[1..], n);
      assert (name + Zeros(n))[1..] == name[1..] + Zeros(n);
      assert name == [name[0]] + name[1..];
    }
  }

  /** Directory entry `i` lists file `i`, its name cut at the first zero byte. */
  lemma EntryRead(s: seq<byte>, base: nat, size: nat, files: seq<File>, wanted: Option<nat>, time: nat, i: nat)
    requires Narrow(size, files, time) && Accepted(size, files, wanted) && Formatted(s, base, size, files, wanted, time) && i < |files|
    ensures 0 < size
    ensures var v := SliceOf(base, size, files, wanted); var at := base + v.dataStart + i * LDIR;
      at + LDIR <= |s| && ListedAt(s, v, at) == [Listed(Cut(files[i].name), i + 3, |files[i].data|)]
  {
    hide Accepted, Super, DataStart, ReadInode, RootAlloc, RootRecord, Extent, RecordOf, Cut, Stands, Ldir, Zeros, FileBytes, InodeSize, U16At;
    AreaFacts(size, files, wanted);
    var v := SliceOf(base, size, files, wanted);
    var at := base + v.dataStart + i * LDIR;
    Bounded(size, files, wanted, i);
    assert FileStored(s, base, size, files, wanted, time, i);
    FileRead(s, base, size, files, wanted, time, i);
    LdirRead(s, at, i + 3, files[i].name);
    CutPadded(files[i].name, NAMELEN - |files[i].name|);
  }

  lemma LdirRead(s: seq<byte>, at: nat, ino: nat, name: Name)
    requires ino < U16 && |name| <= NAMELEN && Stands(s, at, Ldir(ino, name))
    ensures at + LDIR <= |s| && U16At(s, at) == ino && s[at + 2..at + LDIR] == name + Zeros(NAMELEN - |name|)
  {
    hide Le16, Zeros;
    var entry := Ldir(ino, name);
    FieldAt(s, at, entry, 0);
    FieldAt(entry, 0, Le16(ino), 0);
    SliceOfSlice(s, at, at + LDIR, 2, LDIR);
    assert entry[2..LDIR] == name + Zeros(NAMELEN - |name|);
  }

  ghost function ListedFiles(files: seq<File>, from: nat): (r: seq<Listed>)
    requires from <= |files|
    ensures |r| == |files| - from && forall i | 0 <= i < |r| :: r[i] == Listed(Cut(files[from + i].name), from + i + 3, |files[from + i].data|)
  {
    seq(|files| - from, i requires 0 <= i < |files| - from => Listed(Cut(files[from + i].name), from + i + 3, |files[from + i].data|))
  }

  lemma {:induction false} EntriesRead(s: seq<byte>, base: nat, size: nat, files: seq<File>, wanted: Option<nat>, time: nat, i: nat)
    requires Narrow(size, files, time) && Accepted(size, files, wanted) && Formatted(s, base, size, files, wanted, time) && i <= |files|
    ensures 0 < size
    ensures var v := SliceOf(base, size, files, wanted);
      RootFrom(s, v, base + v.dataStart + i * LDIR, (|files| - i) * LDIR) == ListedFiles(files, i)
    decreases |files| - i
  {
    hide Accepted, Formatted, DataStart, ListedAt, Cut;
    AreaFacts(size, files, wanted);
    if i < |files| {
      EntryRead(s, base, size, files, wanted, time, i);
      EntriesRead(s, base, size, files, wanted, time, i + 1);
      var v := SliceOf(base, size, files, wanted);
      assert base + v.dataStart + i * LDIR + LDIR == base + v.dataStart + (i + 1) * LDIR;
      assert (|files| - i) * LDIR - LDIR == (|files| - (i + 1)) * LDIR;
      assert ListedFiles(files, i) == ListedFiles(files, i)[..1] + ListedFiles(files, i + 1);
    }
  }

  /** Listing a formatted slice gives the files in order with their sizes. */
  lemma RootIs(s: seq<byte>, base: nat, size: nat, files: seq<File>, wanted: Option<nat>, time: nat)
    requires Narrow(size, files, time) && Accepted(size, files, wanted) && Formatted(s, base, size, files, wanted, time)
    ensures 0 < size && Root(s, SliceOf(base, size, files, wanted)) == ListedFiles(files, 0)
  {
    hide Accepted, Formatted, ReadInode, InodeSize, RootFrom, ListedFiles;
    RootRead(s, base, size, files, wanted, time);
    EntriesRead(s, base, size, files, wanted, time, 0);
  }

  /** Names survive the round trip exactly when none contains a zero byte, which `format` does not forbid. */
  lemma NamesSurvive(files: seq<File>)
    ensures (forall i | 0 <= i < |files| :: ListedFiles(files, 0)[i].name == files[i].name) <==> (forall i | 0 <= i < |files| :: 0 !in files[i].name)
  {
    hide Cut;
    forall i | 0 <= i < |files| ensures ListedFiles(files, 0)[i].name == files[i].name <==> 0 !in files[i].name {
      CutPadded(files[i].name, 0);
      assert ListedFiles(files, 0)[i].name == Cut(files[i].name);
    }
  }

  /** A name with a zero byte is accepted and reads back cut: "a", zero, "b" becomes "a". */
  lemma CutName()
    ensures var files := [File([97, 0, 98], [])]; Accepted(4096, files, None) && ListedFiles(files, 0)[0].name == [97]
  {
    var files := [File([97, 0, 98], [])];
    assert Cut([97, 0, 98]) == [97] + Cut([97, 0, 98][1..]) && [97, 0, 98][1..] == [0, 98];
    assert NameFine(files[0].name);
    assert FitsAt(files, DataStart(1, None) + RootAlloc(1), 4096, 0);
  }

  /** Formats a slice and reads everything back. */
  method RoundTrip(out: array<byte>, base: nat, size: nat, files: seq<File>, wanted: Option<nat>, time: nat, k: nat)
    returns (ok: bool, found: Option<Volume>, entries: seq<Listed>, data: Option<seq<byte>>)
    requires base + size <= out.Length && Narrow(size, files, time) && k < |files| && forall i | 0 <= i < |files| :: 0 !in files[i].name
    modifies out
    ensures ok <==> Accepted(size, files, wanted)
    ensures ok ==> found.Some? && |entries| == |files|
    ensures ok ==> forall i | 0 <= i < |files| :: entries[i].name == files[i].name && entries[i].size == |files[i].data|
    ensures ok ==> data == Some(files[k].data) && Outside(old(out[..]), out[..], base, size)
  {
    hide Accepted, Formatted, Root, Outside, Cut, FileBytes, Detect;
    found, entries, data := None, [], None;
    var formatted := FormatBfs(out, base, size, files, wanted, time);
    ok := formatted.Ok?;
    if !ok { return; }
    var s := out[..];
    Detected(s, base, size, files, wanted, time);
    found := Detect(s, base);
    RootIs(s, base, size, files, wanted, time);
    entries := ListRoot(s, found.value);
    NamesSurvive(files);
    FileRead(s, base, size, files, wanted, time, k);
    Distinct(size, files, wanted);
    data := ReadFile(s, found.value, files[k].name);
  }

  lemma Distinct(size: nat, files: seq<File>, wanted: Option<nat>)
    requires Accepted(size, files, wanted)
    ensures forall i, j | 0 <= i < j < |files| :: files[i].name != files[j].name
  {
    hide Fit, DataStart, RootAlloc;
  }
}
