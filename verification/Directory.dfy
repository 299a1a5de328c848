/** Whole directories: sequences of tiled 512-byte blocks. */
module Directory {
  import opened Geometry
  import opened Codec
  import opened Dir

  function BlockCount(dir: seq<byte>): nat { |dir| / DIRBLK }

  function BlockAt(dir: seq<byte>, i: nat): (r: seq<byte>)
    requires DIRBLK * i + DIRBLK <= |dir|
    ensures |r| == DIRBLK
  {
    dir[DIRBLK * i..DIRBLK * i + DIRBLK]
  }

  /** Every block of the directory is tiled by records. */
  predicate DirTiled(dir: seq<byte>) {
    |dir| % DIRBLK == 0 && forall i | 0 <= i < BlockCount(dir) :: Tiles(BlockAt(dir, i), 0, DIRBLK)
  }

  /** Live entries of the first `n` blocks, in order. */
  function LiveTo(dir: seq<byte>, n: nat): seq<Entry>
    requires DirTiled(dir) && n <= BlockCount(dir)
  {
    if n == 0 then [] else LiveTo(dir, n - 1) + Ents(BlockAt(dir, n - 1), 0, DIRBLK)
  }

  function Live(dir: seq<byte>): seq<Entry>
    requires DirTiled(dir)
  {
    LiveTo(dir, BlockCount(dir))
  }

  /** `dir` with block `i` replaced. */
  function WithBlock(dir: seq<byte>, i: nat, blk: seq<byte>): (r: seq<byte>)
    requires |blk| == DIRBLK && DIRBLK * i + DIRBLK <= |dir|
    ensures |r| == |dir|
  {
    Splice(dir, DIRBLK * i, blk)
  }

  lemma OtherBlock(dir: seq<byte>, i: nat, blk: seq<byte>, j: nat)
    requires |blk| == DIRBLK && DIRBLK * i + DIRBLK <= |dir| && DIRBLK * j + DIRBLK <= |dir|
    ensures BlockAt(WithBlock(dir, i, blk), j) == if j == i then blk else BlockAt(dir, j)
  {
    SpliceParts(dir, DIRBLK * i, blk, DIRBLK * j, DIRBLK * j + DIRBLK);
  }

  lemma WithBlockTiled(dir: seq<byte>, i: nat, blk: seq<byte>)
    requires DirTiled(dir) && i < BlockCount(dir) && |blk| == DIRBLK && Tiles(blk, 0, DIRBLK)
    ensures DirTiled(WithBlock(dir, i, blk))
  {
    hide Tiles, WithBlock, BlockAt;
    var dir' := WithBlock(dir, i, blk);
    forall j | 0 <= j < BlockCount(dir') ensures Tiles(BlockAt(dir', j), 0, DIRBLK) {
      OtherBlock(dir, i, blk, j);
    }
  }

  /** Entries before and after a changed block stay as they were. */
  lemma {:induction false} LiveWith(dir: seq<byte>, i: nat, blk: seq<byte>, n: nat)
    requires DirTiled(dir) && i < BlockCount(dir) && |blk| == DIRBLK && Tiles(blk, 0, DIRBLK) && n <= BlockCount(dir)
    requires DirTiled(WithBlock(dir, i, blk))
    ensures n <= i ==> LiveTo(WithBlock(dir, i, blk), n) == LiveTo(dir, n)
    ensures i < n ==> LiveTo(dir, i) + Ents(BlockAt(dir, i), 0, DIRBLK) <= LiveTo(dir, n)
    ensures i < n ==>
              LiveTo(WithBlock(dir, i, blk), n) ==
                LiveTo(dir, i) + Ents(blk, 0, DIRBLK) + LiveTo(dir, n)[|LiveTo(dir, i)| + |Ents(BlockAt(dir, i), 0, DIRBLK)|..]
    decreases n
  {
    hide Tiles, Ents, WithBlock, BlockAt, DirTiled, LiveTo, BlockCount;
    BlockTiles(dir, i);
    var dir' := WithBlock(dir, i, blk);
    SameCount(dir, dir');
    LiveStart(dir);
    LiveStart(dir');
    if n != 0 {
      BlockTiles(dir, n - 1);
      BlockTiles(dir', n - 1);
      LiveWith(dir, i, blk, n - 1);
      OtherBlock(dir, i, blk, n - 1);
      LiveStep(dir, n);
      LiveStep(dir', n);
      if i < n - 1 {
        TailGrows(LiveTo(dir, i) + Ents(BlockAt(dir, i), 0, DIRBLK), LiveTo(dir, n - 1), Ents(BlockAt(dir, n - 1), 0, DIRBLK));
      }
    }
  }

  lemma SameCount(a: seq<byte>, b: seq<byte>)
    requires |a| == |b|
    ensures BlockCount(a) == BlockCount(b)
  {
  }

  lemma LiveStart(dir: seq<byte>)
    requires DirTiled(dir)
    ensures LiveTo(dir, 0) == []
  {
  }

  lemma LiveStep(dir: seq<byte>, n: nat)
    requires DirTiled(dir) && 0 < n <= BlockCount(dir)
    ensures DIRBLK * (n - 1) + DIRBLK <= |dir| && Tiles(BlockAt(dir, n - 1), 0, DIRBLK)
    ensures LiveTo(dir, n) == LiveTo(dir, n - 1) + Ents(BlockAt(dir, n - 1), 0, DIRBLK)
  {
    hide Tiles, Ents;
  }

  lemma BlockTiles(dir: seq<byte>, i: nat)
    requires DirTiled(dir) && i < BlockCount(dir)
    ensures DIRBLK * i + DIRBLK <= |dir| && Tiles(BlockAt(dir, i), 0, DIRBLK)
  {
  }

  lemma TailGrows(a: seq<Entry>, b: seq<Entry>, c: seq<Entry>)
    requires a <= b
    ensures a <= b + c && (b + c)[|a|..] == b[|a|..] + c
  {
  }

  lemma Replaced(dir: seq<byte>, i: nat, blk: seq<byte>)
    requires DirTiled(dir) && i < BlockCount(dir) && |blk| == DIRBLK && Tiles(blk, 0, DIRBLK)
    ensures DirTiled(WithBlock(dir, i, blk))
    ensures var a, b, c := LiveTo(dir, i), Ents(BlockAt(dir, i), 0, DIRBLK), Live(dir);
      a + b <= c && Live(WithBlock(dir, i, blk)) == a + Ents(blk, 0, DIRBLK) + c[|a| + |b|..]
  {
    hide Tiles, Ents, BlockAt, LiveTo;
    WithBlockTiled(dir, i, blk);
    LiveWith(dir, i, blk, BlockCount(dir));
  }

  lemma InsertInside(a: seq<Entry>, b: seq<Entry>, c: seq<Entry>, k: nat, e: Entry)
    requires a + b <= c && k <= |b|
    ensures a + InsertAt(b, k, e) + c[|a| + |b|..] == InsertAt(c, |a| + k, e)
  {
    assert c == a + b + c[|a| + |b|..];
  }

  lemma RemoveInside(a: seq<Entry>, b: seq<Entry>, c: seq<Entry>, k: nat)
    requires a + b <= c && k < |b|
    ensures a + RemoveAt(b, k) + c[|a| + |b|..] == RemoveAt(c, |a| + k)
  {
    assert c == a + b + c[|a| + |b|..];
  }

  lemma UpdateInside(a: seq<Entry>, b: seq<Entry>, c: seq<Entry>, k: nat, e: Entry)
    requires a + b <= c && k < |b|
    ensures a + b[k := e] + c[|a| + |b|..] == c[|a| + k := e]
  {
    assert c == a + b + c[|a| + |b|..];
  }

  lemma FirstInside(a: seq<Entry>, b: seq<Entry>, c: seq<Entry>, k: nat, name: Name)
    requires a + b <= c && FirstAt(b, k, name) && Absent(a, name)
    ensures FirstAt(c, |a| + k, name)
  {
    assert c[..|a| + k] == a + b[..k];
  }

  // --- growth ----------------------------------------------------------------

  /** The block appended when no existing block has room. */
  function FreshBlock(ino: nat, name: Name): (r: seq<byte>)
    requires 0 < |name| <= MAXNAME && ino < U32
    ensures |r| == DIRBLK
  {
    var needed := DirSiz(|name|);
    var filled := Splice(Zeros(DIRBLK), needed, EncodeEntry(0, [], DIRBLK - needed));
    Splice(filled, 0, EncodeEntry(ino, name, needed))
  }

  lemma FreshOk(ino: nat, name: Name)
    requires 0 < |name| <= MAXNAME && 0 < ino < U32
    ensures Tiles(FreshBlock(ino, name), 0, DIRBLK) && Ents(FreshBlock(ino, name), 0, DIRBLK) == [Entry(name, ino)]
  {
    hide EncodeEntry, Splice, Tiles, Ents, Zeros;
    var t, needed := FreshBlock(ino, name), DirSiz(|name|);
    SpliceTwice(Zeros(DIRBLK), 0, EncodeEntry(ino, name, needed), EncodeEntry(0, [], DIRBLK - needed));
    EncodedOk(t, 0, ino, name, needed);
    BlankOk(t, needed, DIRBLK - needed);
    OneTile(t, 0);
    OneTile(t, needed);
    Join(t, 0, needed, DIRBLK);
  }

  lemma {:induction false} LivePrefix(dir: seq<byte>, blk: seq<byte>, n: nat)
    requires DirTiled(dir) && |blk| == DIRBLK && DirTiled(dir + blk) && n <= BlockCount(dir)
    ensures LiveTo(dir + blk, n) == LiveTo(dir, n)
    decreases n
  {
    hide Tiles, Ents, DirTiled;
    if n != 0 {
      LivePrefix(dir, blk, n - 1);
      assert BlockAt(dir + blk, n - 1) == BlockAt(dir, n - 1);
    }
  }

  lemma AppendedBlock(dir: seq<byte>, blk: seq<byte>, j: nat)
    requires |dir| % DIRBLK == 0 && |blk| == DIRBLK && j <= BlockCount(dir)
    ensures BlockAt(dir + blk, j) == if j < BlockCount(dir) then BlockAt(dir, j) else blk
  {
  }

  lemma Appended(dir: seq<byte>, blk: seq<byte>)
    requires DirTiled(dir) && |blk| == DIRBLK && Tiles(blk, 0, DIRBLK)
    ensures DirTiled(dir + blk) && Live(dir + blk) == Live(dir) + Ents(blk, 0, DIRBLK)
  {
    hide Tiles, Ents, BlockAt;
    var m := BlockCount(dir);
    forall j | 0 <= j < m + 1 ensures Tiles(BlockAt(dir + blk, j), 0, DIRBLK) { AppendedBlock(dir, blk, j); }
    assert BlockCount(dir + blk) == m + 1;
    AppendedBlock(dir, blk, m);
    LivePrefix(dir, blk, m);
  }

  /** No block of the directory has room for a name of `n` bytes. */
  ghost predicate CrowdedDir(dir: seq<byte>, n: nat)
    requires DirTiled(dir)
  {
    forall i | 0 <= i < BlockCount(dir) :: Crowded(BlockAt(dir, i), 0, DIRBLK, n)
  }

  /** Block `i` is the first with room for the name, and only its bytes may have changed. */
  ghost predicate IntoBlock(dir: seq<byte>, r: seq<byte>, i: nat, n: nat)
    requires DirTiled(dir) && |r| == |dir|
  {
    && i < BlockCount(dir) && !Crowded(BlockAt(dir, i), 0, DIRBLK, n)
    && (forall j | 0 <= j < i :: Crowded(BlockAt(dir, j), 0, DIRBLK, n))
    && r[..DIRBLK * i] == dir[..DIRBLK * i] && r[DIRBLK * i + DIRBLK..] == dir[DIRBLK * i + DIRBLK..]
  }

  /** `insert_entry`: into the first block with room, else as a new last block. */
  method InsertEntry(dir: seq<byte>, ino: nat, name: Name) returns (r: seq<byte>, ghost k: nat)
    requires DirTiled(dir) && 0 < |name| <= MAXNAME && 0 < ino < U32
    ensures DirTiled(r) && k <= |Live(dir)| && Live(r) == InsertAt(Live(dir), k, Entry(name, ino))
    ensures |r| == |dir| || (|r| == |dir| + DIRBLK && r[..|dir|] == dir)
    ensures |r| > |dir| <==> CrowdedDir(dir, |name|)
    ensures |r| == |dir| ==> exists i: nat :: IntoBlock(dir, r, i, |name|)
  {
    hide Tiles, Ents, Place, SlotOk, DirSiz, FreshBlock, LiveTo, Full, Crowded;
    var needed := DirSiz(|name|);
    for i := 0 to BlockCount(dir)
      invariant forall j | 0 <= j < i :: Crowded(BlockAt(dir, j), 0, DIRBLK, |name|)
    {
      var blk := BlockAt(dir, i);
      var slot := FindSlot(blk, needed);
      FullIsCrowded(blk, 0, DIRBLK, |name|);
      if slot.Some? {
        var placed := Place(blk, slot.value, ino, name);
        k := PlaceOk(blk, slot.value, ino, name);
        r := WithBlock(dir, i, placed);
        Replaced(dir, i, placed);
        InsertInside(LiveTo(dir, i), Ents(blk, 0, DIRBLK), Live(dir), k, Entry(name, ino));
        k := |LiveTo(dir, i)| + k;
        assert IntoBlock(dir, r, i, |name|);
        return;
      }
    }
    FreshOk(ino, name);
    Appended(dir, FreshBlock(ino, name));
    return dir + FreshBlock(ino, name), |Live(dir)|;
  }

  // --- the first block of a new directory ------------------------------------

  const DOT: Name := [46]
  const DOTDOT: Name := [46, 46]

  /** `build_directory_block`: "." and then ".." filling the block. */
  function DotBlock(self: nat, parent: nat): (r: seq<byte>)
    requires self < U32 && parent < U32
    ensures |r| == DIRBLK
  {
    EncodeEntry(self, DOT, DirSiz(1)) + EncodeEntry(parent, DOTDOT, DIRBLK - DirSiz(1))
  }

  lemma DotBlockOk(self: nat, parent: nat)
    requires 0 < self < U32 && 0 < parent < U32
    ensures DirTiled(DotBlock(self, parent))
    ensures Live(DotBlock(self, parent)) == [Entry(DOT, self), Entry(DOTDOT, parent)]
    ensures RecordSize(1, RecLen(DotBlock(self, parent), 0))
  {
    hide EncodeEntry, Tiles, Ents;
    var t := DotBlock(self, parent);
    DirSizIs(1, DirSiz(1));
    EncodedOk(t, 0, self, DOT, DirSiz(1));
    EncodedOk(t, DirSiz(1), parent, DOTDOT, DIRBLK - DirSiz(1));
    OneTile(t, 0);
    OneTile(t, DirSiz(1));
    Join(t, 0, DirSiz(1), DIRBLK);
    assert BlockAt(t, 0) == t;
    assert LiveTo(t, 0) == [];
  }
}
