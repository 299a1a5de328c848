/**
 Reading directories record by record. Nothing is assumed of the bytes: the walk
 of a block stops at the first record that does not decode.
 */
module ListingOps {
  import opened Arith
  import opened Geometry
  import opened Codec
  import opened VolumeState
  import opened Alloc
  import opened Inodes
  import opened Reader
  import opened Write
  import opened Dir
  import opened Directory
  import opened DirOps

  /** The live, named records of a block from `at` on. */
  ghost function Scan(s: seq<byte>, at: nat): seq<Entry>
    decreases |s| - at
  {
    if !Decodes(s, at) then [] else OneScan(s, at) + Scan(s, at + RecLen(s, at))
  }

  function OneScan(s: seq<byte>, at: nat): seq<Entry>
    requires Decodes(s, at)
  {
    if Ino(s, at) != 0 && NameLen(s, at) > 0 then [Entry(NameAt(s, at), Ino(s, at))] else []
  }

  lemma ScanStep(s: seq<byte>, at: nat)
    ensures if Decodes(s, at) then Scan(s, at) == OneScan(s, at) + Scan(s, at + RecLen(s, at)) else Scan(s, at) == []
  {
    hide Ino, RecLen, NameLen, OneScan;
  }

  /** Only live records with a name of 1 to 255 bytes are listed. */
  lemma {:induction false} ScanLive(s: seq<byte>, at: nat)
    ensures forall e | e in Scan(s, at) :: e.ino != 0 && 0 < |e.name| <= MAXNAME
    decreases |s| - at
  {
    hide Ino, RecLen;
    if Decodes(s, at) { ScanLive(s, at + RecLen(s, at)); }
  }

  /** Directory block `i`, which may be cut short by the end of the directory. */
  function Span(dir: seq<byte>, i: nat): seq<byte>
    requires DIRBLK * i <= |dir|
  {
    dir[DIRBLK * i..Min(DIRBLK * i + DIRBLK, |dir|)]
  }

  /** The live entries of the first `n` blocks. */
  ghost function EntriesTo(dir: seq<byte>, n: nat): seq<Entry>
    requires n <= SpanCount(dir)
  {
    if n == 0 then [] else EntriesTo(dir, n - 1) + Scan(Span(dir, n - 1), 0)
  }

  function SpanCount(dir: seq<byte>): nat { (|dir| + DIRBLK - 1) / DIRBLK }

  ghost function Entries(dir: seq<byte>): seq<Entry> { EntriesTo(dir, SpanCount(dir)) }

  // --- agreement with tiled directories --------------------------------------

  lemma {:induction false} ScanTiled(s: seq<byte>, at: nat)
    requires Tiles(s, at, |s|)
    ensures Scan(s, at) == Ents(s, at, |s|)
    decreases |s| - at
  {
    hide Ino, RecLen, NameLen, NameAt;
    if at != |s| { ScanTiled(s, at + RecLen(s, at)); }
  }

  lemma {:induction false} EntriesTiled(dir: seq<byte>, n: nat)
    requires DirTiled(dir) && n <= BlockCount(dir)
    ensures EntriesTo(dir, n) == LiveTo(dir, n)
    decreases n
  {
    hide Scan, Ents, Tiles;
    if n != 0 {
      EntriesTiled(dir, n - 1);
      assert Span(dir, n - 1) == BlockAt(dir, n - 1);
      ScanTiled(BlockAt(dir, n - 1), 0);
    }
  }

  /** On a tiled directory the record walk finds exactly the live entries. */
  lemma EntriesLive(dir: seq<byte>)
    requires DirTiled(dir)
    ensures Entries(dir) == Live(dir)
  {
    hide Tiles, LiveTo, EntriesTo;
    EntriesTiled(dir, BlockCount(dir));
  }

  // --- walking one block -----------------------------------------------------

  /** `iter_directory_records` with the filter of `iter_directory_entries`. */
  method BlockEntries(s: seq<byte>) returns (es: seq<Entry>)
    ensures es == Scan(s, 0)
  {
    hide Ino, RecLen, NameLen, NameAt, Scan, Decodes;
    es := [];
    var offset := 0;
    while offset + 8 <= |s|
      invariant offset <= |s| && es + Scan(s, offset) == Scan(s, 0)
    {
      ScanStep(s, offset);
      if !Decodes(s, offset) {
        break;
      }
      DecodesFits(s, offset);
      if Ino(s, offset) != 0 && NameLen(s, offset) > 0 {
        es := es + [Entry(NameAt(s, offset), Ino(s, offset))];
      }
      offset := offset + RecLen(s, offset);
    }
    ScanEnd(s, offset);
  }

  /** The scan of `lookup_directory_entry` over one block, comparing names in place. */
  method ScanFor(s: seq<byte>, name: Name) returns (r: Option<nat>, ghost k: nat)
    requires name != []
    ensures r.None? <==> Absent(Scan(s, 0), name)
    ensures r.Some? ==> FirstAt(Scan(s, 0), k, name) && Scan(s, 0)[k].ino == r.value
  {
    hide Scan, RecLen, Decodes, NameLen, Ino;
    var cursor := 0;
    ghost var seen: seq<Entry> := [];
    while cursor + 8 <= |s|
      invariant cursor <= |s| && seen + Scan(s, cursor) == Scan(s, 0) && Absent(seen, name)
    {
      ScanStep(s, cursor);
      if !Decodes(s, cursor) {
        break;
      }
      DecodesFits(s, cursor);
      if Ino(s, cursor) != 0 && NameLen(s, cursor) == |name| {
        if s[cursor + 8..cursor + 8 + |name|] == name {
          FirstHit(seen, Entry(name, Ino(s, cursor)), Scan(s, cursor + RecLen(s, cursor)), Scan(s, 0));
          return Some(Ino(s, cursor)), |seen|;
        }
      }
      seen := seen + OneScan(s, cursor);
      cursor := cursor + RecLen(s, cursor);
    }
    ScanEnd(s, cursor);
    assert seen == Scan(s, 0);
    return None, 0;
  }

  lemma DecodesFits(s: seq<byte>, at: nat)
    requires Decodes(s, at)
    ensures at + 8 <= |s| && 0 < RecLen(s, at) && at + RecLen(s, at) <= |s| && at + 8 + NameLen(s, at) <= |s|
  {
    hide RecLen, NameLen;
  }

  lemma ScanEnd(s: seq<byte>, at: nat)
    requires !Decodes(s, at) || |s| < at + 8
    ensures Scan(s, at) == []
  {
    hide RecLen, NameLen, Ino;
  }

  lemma FirstHit(seen: seq<Entry>, e: Entry, rest: seq<Entry>, all: seq<Entry>)
    requires Absent(seen, e.name) && all == seen + ([e] + rest)
    ensures FirstAt(all, |seen|, e.name) && all[|seen|] == e && !Absent(all, e.name)
  {
    assert all[..|seen|] == seen;
    assert all[|seen|] == e;
  }

  // --- walking a directory ---------------------------------------------------

  /** The contents are as long as the size or as the blocks, whichever is shorter. */
  lemma ContentsLength(g: Geometry, img: seq<byte>, d: Dinode)
    requires Walks(g, img, d)
    ensures |Contents(g, img, d)| == Min(d.size, Mul(|DataBlocks(g, img, d)|, g.bsize))
    ensures Readable(g, img, d) ==> |Contents(g, img, d)| == d.size
  {
    hide Joined, DataBlocks, PtrBlocks, Need, Mul;
    NeedCovers(g, d.size);
    JoinedLength(g, img, DataBlocks(g, img, d));
  }

  /** Whole blocks are whole numbers of directory blocks. */
  lemma {:induction false} WholeBlocks(g: Geometry, k: nat)
    requires ValidGeometry(g) && 0 < g.bsize
    ensures Mul(k, g.bsize) % DIRBLK == 0
    decreases k
  {
    hide Capacity, Rem, Mul;
    MulZero(g.bsize);
    if k != 0 {
      WholeBlocks(g, k - 1);
      MulSucc(k - 1, g.bsize);
      MulIsProduct(g.frag, g.fsize);
      AddMultiple(Mul(k - 1, g.bsize), g.frag * g.nspf);
      assert g.frag * (SECTOR * g.nspf) == DIRBLK * (g.frag * g.nspf);
    }
  }

  lemma AddMultiple(a: nat, b: nat)
    requires a % DIRBLK == 0
    ensures (a + DIRBLK * b) % DIRBLK == 0
  {
  }

  /** Where directory block `i` lies: inside one file system block. */
  lemma SpanPlace(g: Geometry, img: seq<byte>, d: Dinode, i: nat)
    requires ValidGeometry(g) && Walks(g, img, d) && DIRBLK * i < d.size
    ensures var bs, q, lo := DataBlocks(g, img, d), Quot(DIRBLK * i, g.bsize), Rem(DIRBLK * i, g.bsize);
      var n := Min(DIRBLK, d.size - DIRBLK * i);
      && (q < |bs| <==> DIRBLK * i < |Contents(g, img, d)|)
      && (q < |bs| ==>
            && lo + n <= g.bsize && Mul(bs[q], g.fsize) + g.bsize <= |img| && |Region(g, img, bs[q])| == g.bsize
            && Region(g, img, bs[q])[lo..lo + n] == Span(Contents(g, img, d), i))
  {
    hide DataBlocks, PtrBlocks, Joined, Region, ValidGeometry, Mul, Quot, Rem, Need;
    var bs, q, lo := DataBlocks(g, img, d), Quot(DIRBLK * i, g.bsize), Rem(DIRBLK * i, g.bsize);
    var n := Min(DIRBLK, d.size - DIRBLK * i);
    ContentsLength(g, img, d);
    BlockFits(g, i);
    Recompose(DIRBLK * i, g.bsize);
    if |bs| <= q {
      MulAdd(|bs|, q - |bs|, g.bsize);
    } else {
      MulLess(q, |bs|, g.bsize);
      WholeBlocks(g, |bs|);
      JoinedAt(g, img, bs, q);
      SpanIs(Joined(g, img, bs), d.size, q, g.bsize, lo, i);
    }
  }

  lemma SpanIs(all: seq<byte>, size: nat, q: nat, bsize: nat, lo: nat, i: nat)
    requires Mul(q, bsize) + lo == DIRBLK * i < Min(size, |all|) && |all| % DIRBLK == 0 && Mul(q, bsize) + bsize <= |all|
    requires lo + Min(DIRBLK, size - DIRBLK * i) <= bsize
    ensures var n := Min(DIRBLK, size - DIRBLK * i);
      all[Mul(q, bsize)..Mul(q, bsize) + bsize][lo..lo + n] == Span(Head(all, size), i)
  {
    hide Mul;
    var n, start := Min(DIRBLK, size - DIRBLK * i), Mul(q, bsize);
    SliceOfSlice(all, start, start + bsize, lo, lo + n);
    var dir := Head(all, size);
    assert dir == all[0..|dir|];
    assert DIRBLK * i + n <= |dir|;
    SliceOfSlice(all, 0, |dir|, DIRBLK * i, DIRBLK * i + n);
  }

  /** `lookup_directory_entry`: the first live record called `name` in the record list, whatever the bytes;
      none also when that record's inode cannot be read. */
  method LookupRecord(vol: Volume, d: Dinode, name: Name) returns (r: Option<nat>, ghost k: nat)
    requires ValidGeometry(vol.g) && Walks(vol.g, vol.image[..], d) && name != []
    ensures Absent(Entries(Contents(vol.g, vol.image[..], d)), name) ==> r == None
    ensures !Absent(Entries(Contents(vol.g, vol.image[..], d)), name) ==>
              var es := Entries(Contents(vol.g, vol.image[..], d));
              FirstAt(es, k, name) && r == if es[k].ino < |vol.inodes| then Some(es[k].ino) else None
  {
    hide ValidGeometry, DataBlocks, PtrBlocks, Contents, Scan, Mul, Quot, Rem, Region, Span, EntriesTo, SpanCount, Absent;
    ghost var dir := Contents(vol.g, vol.image[..], d);
    NothingYet(dir, name);
    ContentsLength(vol.g, vol.image[..], d);
    if d.size == 0 {
      SpanLeft(dir, 0);
      return None, 0;
    }
    var bs := InodeDataBlocks(vol, d);
    var i := 0;
    while DIRBLK * i < d.size
      invariant i <= SpanCount(dir) && Absent(EntriesTo(dir, i), name)
    {
      SpanLeft(dir, i);
      SpanPlace(vol.g, vol.image[..], d, i);
      var q, lo := Quot(DIRBLK * i, vol.g.bsize), Rem(DIRBLK * i, vol.g.bsize);
      if q >= |bs| {
        break;
      }
      var span := ReadPart(vol, bs[q], lo, lo + Min(DIRBLK, d.size - DIRBLK * i));
      var found, j := ScanFor(span, name);
      if found.Some? {
        Hit(dir, i, j, name);
        NotAbsent(Entries(dir), |EntriesTo(dir, i)| + j, name);
        k := |EntriesTo(dir, i)| + j;
        return if found.value < |vol.inodes| then found else None, k;
      }
      Miss(dir, i, name);
      i := i + 1;
    }
    SpanLeft(dir, i);
    return None, 0;
  }

  lemma NotAbsent(es: seq<Entry>, k: nat, name: Name)
    requires FirstAt(es, k, name)
    ensures !Absent(es, name)
  {
  }

  lemma NothingYet(dir: seq<byte>, name: Name)
    ensures Absent(EntriesTo(dir, 0), name)
  {
  }

  lemma SpanLeft(dir: seq<byte>, i: nat)
    requires i <= SpanCount(dir)
    ensures DIRBLK * i < |dir| <==> i < SpanCount(dir)
  {
  }

  /** The entry was found in block `i`. */
  lemma Hit(dir: seq<byte>, i: nat, j: nat, name: Name)
    requires i < SpanCount(dir) && DIRBLK * i < |dir| && Absent(EntriesTo(dir, i), name) && FirstAt(Scan(Span(dir, i), 0), j, name)
    ensures var k := |EntriesTo(dir, i)| + j; FirstAt(Entries(dir), k, name) && Entries(dir)[k] == Scan(Span(dir, i), 0)[j]
  {
    hide Scan, Span, SpanCount, Absent, EntriesTo, Entries;
    EntriesStep(dir, i);
    var a, b, c := EntriesTo(dir, i), Scan(Span(dir, i), 0), Entries(dir);
    FirstInside(a, b, c, j, name);
    assert c[|a| + j] == (a + b)[|a| + j];
  }

  lemma EntriesStep(dir: seq<byte>, i: nat)
    requires i < SpanCount(dir) && DIRBLK * i < |dir|
    ensures EntriesTo(dir, i) + Scan(Span(dir, i), 0) <= Entries(dir)
  {
    hide Scan, Span, SpanCount;
    EntriesGrow(dir, i + 1, SpanCount(dir));
  }

  lemma Miss(dir: seq<byte>, i: nat, name: Name)
    requires i < SpanCount(dir) && DIRBLK * i < |dir| && Absent(EntriesTo(dir, i), name) && Absent(Scan(Span(dir, i), 0), name)
    ensures Absent(EntriesTo(dir, i + 1), name)
  {
    hide Scan, Span;
  }

  lemma {:induction false} EntriesGrow(dir: seq<byte>, m: nat, n: nat)
    requires m <= n <= SpanCount(dir)
    ensures EntriesTo(dir, m) <= EntriesTo(dir, n)
    decreases n
  {
    hide Scan;
    if m < n { EntriesGrow(dir, m, n - 1); }
  }

  /** Every directory block below the size starts within the bytes there are. */
  ghost predicate Listable(g: Geometry, img: seq<byte>, d: Dinode) {
    Walks(g, img, d) && (d.size == 0 || DIRBLK * ((d.size - 1) / DIRBLK) <= |Contents(g, img, d)|)
  }

  lemma ReadableListable(g: Geometry, img: seq<byte>, d: Dinode)
    requires Readable(g, img, d)
    ensures Listable(g, img, d)
  {
    hide DataBlocks, PtrBlocks, Contents, Need, Mul;
    ContentsLength(g, img, d);
  }

  /** `iter_directory_entries`, without the final sort. */
  method ReadEntries(vol: Volume, d: Dinode) returns (es: seq<Entry>)
    requires Listable(vol.g, vol.image[..], d)
    ensures es == Entries(Contents(vol.g, vol.image[..], d))
  {
    hide DataBlocks, PtrBlocks, Contents, Scan, Span, EntriesTo, Mul, Need;
    var dir := ReadInodeBytes(vol, d);
    ContentsLength(vol.g, vol.image[..], d);
    es := [];
    NothingListed(dir);
    var i := 0;
    while DIRBLK * i < d.size
      invariant i == 0 || DIRBLK * (i - 1) < d.size
      invariant es == EntriesTo(dir, Min(i, SpanCount(dir)))
    {
      assert i <= (d.size - 1) / DIRBLK;
      var more := BlockEntries(Span(dir, i));
      ListMore(dir, i);
      es := es + more;
      i := i + 1;
    }
    assert SpanCount(dir) <= i;
  }

  lemma NothingListed(dir: seq<byte>)
    ensures EntriesTo(dir, 0) == []
  {
  }

  /** The next block, or an empty one at the very end. */
  lemma ListMore(dir: seq<byte>, i: nat)
    requires DIRBLK * i <= |dir|
    ensures EntriesTo(dir, Min(i + 1, SpanCount(dir))) == EntriesTo(dir, Min(i, SpanCount(dir))) + Scan(Span(dir, i), 0)
  {
    hide Scan, EntriesTo, SpanCount, Span;
    SpanCounted(dir, i);
    if DIRBLK * i == |dir| {
      EmptySpan(dir, i);
    } else {
      EntriesNext(dir, i);
    }
  }

  lemma SpanCounted(dir: seq<byte>, i: nat)
    requires DIRBLK * i <= |dir|
    ensures i <= SpanCount(dir) && (DIRBLK * i < |dir| <==> i < SpanCount(dir))
  {
  }

  lemma EmptySpan(dir: seq<byte>, i: nat)
    requires DIRBLK * i == |dir|
    ensures Scan(Span(dir, i), 0) == []
  {
    ScanEnd(Span(dir, i), 0);
  }

  lemma EntriesNext(dir: seq<byte>, i: nat)
    requires i < SpanCount(dir)
    ensures DIRBLK * i <= |dir| && EntriesTo(dir, i + 1) == EntriesTo(dir, i) + Scan(Span(dir, i), 0)
  {
    hide Scan, Span;
  }

  /** `directory_is_empty`: nothing but "." and "..". */
  method DirectoryIsEmpty(vol: Volume, d: Dinode) returns (r: bool)
    requires Readable(vol.g, vol.image[..], d) && DirTiled(Contents(vol.g, vol.image[..], d))
    ensures r <==> forall e | e in Entries(Contents(vol.g, vol.image[..], d)) :: e.name == DOT || e.name == DOTDOT
  {
    hide Readable, Entries, DirTiled, Listable, Contents;
    ReadableListable(vol.g, vol.image[..], d);
    var es := ReadEntries(vol, d);
    for i := 0 to |es|
      invariant forall j | 0 <= j < i :: es[j].name == DOT || es[j].name == DOTDOT
    {
      if es[i].name != DOT && es[i].name != DOTDOT {
        assert es[i] in es;
        return false;
      }
    }
    return true;
  }

  /** A directory that satisfies the invariant can be read, and reads as its listing. */
  lemma ListingReads(v: Vol, live: set<nat>, n: nat)
    requires Sound(v, live) && n in live && IsDir(v, n)
    ensures ValidGeometry(v.g) && Readable(v.g, v.img, v.inodes[n]) && Entries(Contents(v.g, v.img, v.inodes[n])) == Listing(v, n)
  {
    hide Sound, Readable, Contents, DirTiled, Entries, Live, InodeOk;
    SoundInode(v, live, n);
    EntriesLive(Data(v, n));
  }
}
