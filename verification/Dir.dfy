/**
 Directory blocks: variable-length records that tile 512 bytes. A record holds an
 inode number (0 when blank), its own length, and a name.
 */
module Dir {
  import opened Geometry
  import opened Codec

  const DIRBLK: nat := 512
  const MAXNAME: nat := 255

  type Name = seq<byte>

  datatype Option<T> = None | Some(value: T)

  /** One live directory entry. */
  datatype Entry = Entry(name: Name, ino: nat)

  /** `ufs_dirsiz`: header plus name and NUL, rounded up to four bytes. */
  function DirSiz(n: nat): nat { 8 + (n + 4) / 4 * 4 }

  // --- names as text ---------------------------------------------------------

  predicate Ascii(name: Name) { forall i | 0 <= i < |name| :: name[i] < 128 }

  /** `decode_ascii_replace`: the text removal compares, every byte past ASCII replaced. */
  function Decoded(raw: Name): (r: seq<int>)
    ensures |r| == |raw| && forall i | 0 <= i < |raw| :: r[i] == if raw[i] < 128 then raw[i] else 0xFFFD
  {
    seq<int>(|raw|, i requires 0 <= i < |raw| => (var b: int := raw[i]; if b < 128 then b else 0xFFFD))
  }

  /** For an ASCII name, comparing decoded text is comparing bytes. */
  lemma DecodedIs(raw: Name, name: Name)
    requires Ascii(name)
    ensures Decoded(raw) == name <==> raw == name
  {
    if Decoded(raw) == name {
      assert forall i | 0 <= i < |raw| :: Decoded(raw)[i] == name[i];
    }
  }

  /** The bytes a code point is stored as. */
  function Utf8(c: nat): (r: seq<byte>)
    requires c < 0x11_0000
    ensures 0 < |r| && (c < 128 ==> r == [c]) && (c >= 128 ==> |r| > 1)
  {
    if c < 0x80 then [c]
    else if c < 0x800 then [0xC0 + c / 0x40, 0x80 + c % 0x40]
    else if c < 0x1_0000 then [0xE0 + c / 0x1000, 0x80 + c / 0x40 % 0x40, 0x80 + c % 0x40]
    else [0xF0 + c / 0x4_0000, 0x80 + c / 0x1000 % 0x40, 0x80 + c / 0x40 % 0x40, 0x80 + c % 0x40]
  }

  /** The code point can be read back from its bytes, whose first tells how many there are. */
  lemma Utf8Recovers(c: nat)
    requires c < 0x11_0000
    ensures var r: seq<int> := Utf8(c);
      && (forall i | 1 <= i < |r| :: 0x80 <= r[i] < 0xC0)
      && (|r| == 1 ==> r[0] == c < 0x80)
      && (|r| == 2 ==> 0xC0 <= r[0] < 0xE0 && c == (r[0] - 0xC0) * 0x40 + (r[1] - 0x80))
      && (|r| == 3 ==> 0xE0 <= r[0] < 0xF0 && c == (r[0] - 0xE0) * 0x1000 + (r[1] - 0x80) * 0x40 + (r[2] - 0x80))
      && (|r| > 3 ==>
            && |r| == 4 && 0xF0 <= r[0] < 0xF8
            && c == (r[0] - 0xF0) * 0x4_0000 + (r[1] - 0x80) * 0x1000 + (r[2] - 0x80) * 0x40 + (r[3] - 0x80))
  {
    SixBits(c);
    SixBits(c / 0x40);
    SixBits(c / 0x40 / 0x40);
    Nested(c);
  }

  lemma SixBits(c: nat)
    ensures c == c / 0x40 * 0x40 + c % 0x40
  {
  }

  lemma Nested(c: nat)
    ensures c / 0x1000 == c / 0x40 / 0x40 && c / 0x4_0000 == c / 0x40 / 0x40 / 0x40
  {
  }

  ghost predicate IsText(text: seq<nat>) { forall i | 0 <= i < |text| :: text[i] < 0x11_0000 }

  /** The raw bytes a name is stored and looked up as. */
  ghost function Encoded(text: seq<nat>): Name
    requires IsText(text)
  {
    if text == [] then [] else Encoded(text[..|text| - 1]) + Utf8(text[|text| - 1])
  }

  lemma {:induction false} EncodedSize(text: seq<nat>)
    requires IsText(text)
    ensures |text| <= |Encoded(text)|
    ensures |text| == |Encoded(text)| <==> forall i | 0 <= i < |text| :: text[i] < 128
    ensures |text| == |Encoded(text)| ==> Encoded(text) == text
    decreases |text|
  {
    hide Utf8;
    if text != [] {
      var n := |text| - 1;
      EncodedSize(text[..n]);
      assert text == text[..n] + [text[n]];
    }
  }

  /** A name found by its bytes is also found by its decoded text, and so can be removed, exactly when it is ASCII. */
  lemma RemovableIff(text: seq<nat>)
    requires IsText(text)
    ensures Decoded(Encoded(text)) == text <==> forall i | 0 <= i < |text| :: text[i] < 128
  {
    EncodedSize(text);
    if |text| == |Encoded(text)| { DecodedIs(Encoded(text), Encoded(text)); }
  }

  /** U+00E9 and U+00E8 are two names that lookup tells apart, and two replacement characters remove either. */
  lemma Collision()
    ensures IsText([0xE9]) && IsText([0xE8]) && IsText([0xFFFD, 0xFFFD])
    ensures Encoded([0xE9]) == [0xC3, 0xA9] && Encoded([0xE8]) == [0xC3, 0xA8]
    ensures Decoded(Encoded([0xE9])) == [0xFFFD, 0xFFFD] == Decoded(Encoded([0xE8]))
  {
    assert Utf8(0xE9) == [0xC3, 0xA9] && Utf8(0xE8) == [0xC3, 0xA8];
    OneCharacter(0xE9);
    OneCharacter(0xE8);
  }

  lemma OneCharacter(c: nat)
    requires c < 0x11_0000
    ensures IsText([c]) && Encoded([c]) == Utf8(c)
  {
    hide Utf8;
    assert [c][..0] == [] && Encoded([]) == [];
  }

  // --- records ---------------------------------------------------------------

  function Ino(s: seq<byte>, at: nat): nat requires at + 8 <= |s| { U32At(s, at) }
  function RecLen(s: seq<byte>, at: nat): nat requires at + 8 <= |s| { U16At(s, at + 4) }
  function NameLen(s: seq<byte>, at: nat): nat requires at + 8 <= |s| { U16At(s, at + 6) }

  function NameAt(s: seq<byte>, at: nat): Name
    requires at + 8 <= |s| && at + 8 + NameLen(s, at) <= |s|
  {
    s[at + 8..at + 8 + NameLen(s, at)]
  }

  /** `decode_directory_header` accepts the record at `at`. */
  predicate Decodes(s: seq<byte>, at: nat) {
    && at + 8 <= |s|
    && 0 < RecLen(s, at) && at + RecLen(s, at) <= |s|
    && NameLen(s, at) <= MAXNAME && at + 8 + NameLen(s, at) <= |s|
  }

  /** `encode_entry`. */
  function EncodeEntry(ino: nat, name: Name, len: nat): (r: seq<byte>)
    requires 8 + |name| <= len < U16 && ino < U32
    ensures |r| == len && Ino(r, 0) == ino && RecLen(r, 0) == len && NameLen(r, 0) == |name|
    ensures r[8..8 + |name|] == name && forall i | 8 + |name| <= i < len :: r[i] == 0
  {
    var head := Le32(ino) + Le16(len) + Le16(|name|);
    var r := head + name + Zeros(len - 8 - |name|);
    HeadFields(r, ino, len, |name|);
    r
  }

  /** A record byte by byte: number, length and name length, lowest bytes first, then the name and zeros. */
  lemma RecordBytes(ino: nat, name: Name, len: nat)
    requires 8 + |name| <= len < U16 && ino < U32
    ensures var r: seq<int> := EncodeEntry(ino, name, len);
      && |r| == len && ino == r[0] + 0x100 * r[1] + 0x1_0000 * r[2] + 0x100_0000 * r[3]
      && len == r[4] + 0x100 * r[5] && |name| == r[6] + 0x100 * r[7]
      && r[8..8 + |name|] == name && forall i | 8 + |name| <= i < len :: r[i] == 0
  {
    var r := EncodeEntry(ino, name, len);
    assert Ino(r, 0) == ino && RecLen(r, 0) == len && NameLen(r, 0) == |name|;
  }

  lemma HeadFields(r: seq<byte>, ino: nat, len: nat, n: nat)
    requires ino < U32 && len < U16 && n < U16 && |r| >= 8 && r[..8] == Le32(ino) + Le16(len) + Le16(n)
    ensures Ino(r, 0) == ino && RecLen(r, 0) == len && NameLen(r, 0) == n
  {
    var a, b, c := Le32(ino), Le16(len), Le16(n);
    assert forall i | 0 <= i < 8 :: r[i] == r[..8][i];
    assert r[0] == a[0] && r[1] == a[1] && r[2] == a[2] && r[3] == a[3];
    assert r[4] == b[0] && r[5] == b[1] && r[6] == c[0] && r[7] == c[1];
  }

  /**
   The slot search accepts any name whose record fits a block, but the decoder
   takes only names of at most 255 bytes: longer ones become unreadable records.
   */
  lemma LongNamesUnreadable(ino: nat, name: Name, len: nat)
    requires ino < U32 && DirSiz(|name|) <= len <= DIRBLK
    ensures Decodes(EncodeEntry(ino, name, len), 0) <==> |name| <= MAXNAME
  {
    hide EncodeEntry;
  }

  /** Reading a record inside a slice or inside the whole gives the same fields. */
  lemma FieldShift(s: seq<byte>, at: nat, e: seq<byte>)
    requires at + |e| <= |s| && |e| >= 8 && s[at..at + |e|] == e
    ensures Ino(s, at) == Ino(e, 0) && RecLen(s, at) == RecLen(e, 0) && NameLen(s, at) == NameLen(e, 0)
    ensures 8 + NameLen(e, 0) <= |e| ==> NameAt(s, at) == NameAt(e, 0)
  {
    assert forall i | 0 <= i < |e| :: s[at + i] == e[i];
  }

  /** Equal bytes give equal fields. */
  lemma FieldFrame(s: seq<byte>, t: seq<byte>, at: nat, end: nat)
    requires at + 8 <= end <= |s| && end <= |t| && s[at..end] == t[at..end]
    ensures Ino(s, at) == Ino(t, at) && RecLen(s, at) == RecLen(t, at) && NameLen(s, at) == NameLen(t, at)
    ensures at + 8 + NameLen(s, at) <= end ==> NameAt(s, at) == NameAt(t, at)
  {
    FieldShift(s, at, s[at..end]);
    FieldShift(t, at, t[at..end]);
  }

  // --- tilings ---------------------------------------------------------------

  /** The record at `at` is well formed; a live one has a name that fits in it. */
  predicate RecordOk(s: seq<byte>, at: nat) {
    && Decodes(s, at) && 8 <= RecLen(s, at)
    && (Ino(s, at) != 0 ==> 0 < NameLen(s, at) && DirSiz(NameLen(s, at)) <= RecLen(s, at))
  }

  /** Well-formed records cover `[a, b)` exactly. */
  predicate Tiles(s: seq<byte>, a: nat, b: nat)
    requires b <= |s|
    decreases b - a
  {
    a == b || (a < b && RecordOk(s, a) && a + RecLen(s, a) <= b && Tiles(s, a + RecLen(s, a), b))
  }

  /** The live entries of the records covering `[a, b)`, in order. */
  function Ents(s: seq<byte>, a: nat, b: nat): seq<Entry>
    requires b <= |s| && Tiles(s, a, b)
    decreases b - a
  {
    if a == b then [] else OneEnt(s, a) + Ents(s, a + RecLen(s, a), b)
  }

  function OneEnt(s: seq<byte>, at: nat): seq<Entry>
    requires RecordOk(s, at)
  {
    if Ino(s, at) == 0 then [] else [Entry(NameAt(s, at), Ino(s, at))]
  }

  lemma {:induction false} Join(s: seq<byte>, a: nat, c: nat, b: nat)
    requires c <= b <= |s| && Tiles(s, a, c) && Tiles(s, c, b)
    ensures Tiles(s, a, b) && Ents(s, a, b) == Ents(s, a, c) + Ents(s, c, b)
    decreases c - a
  {
    hide OneEnt, Ino, RecLen, NameLen;
    if a != c { Join(s, a + RecLen(s, a), c, b); }
  }

  /** Tilings and entries depend only on the bytes they cover. */
  lemma {:induction false} TilesFrame(s: seq<byte>, t: seq<byte>, a: nat, b: nat)
    requires a <= b <= |s| == |t| && s[a..b] == t[a..b] && Tiles(s, a, b)
    ensures Tiles(t, a, b) && Ents(t, a, b) == Ents(s, a, b)
    decreases b - a
  {
    hide RecordOk, OneEnt, RecLen, Ino, NameLen;
    if a != b {
      TileFits(s, a, b);
      var n := RecLen(s, a);
      RecordFrame(s, t, a, b);
      TileFits(t, a, b);
      assert s[a + n..b] == s[a..b][n..] && t[a + n..b] == t[a..b][n..];
      TilesFrame(s, t, a + n, b);
    }
  }

  /** A well-formed record has a header, and takes up room. */
  lemma TileFits(s: seq<byte>, a: nat, b: nat)
    requires RecordOk(s, a)
    ensures a + 8 <= |s| && 8 <= RecLen(s, a)
  {
    hide RecLen, Ino, NameLen;
  }

  lemma RecordFrame(s: seq<byte>, t: seq<byte>, a: nat, b: nat)
    requires a <= b <= |s| == |t| && s[a..b] == t[a..b] && RecordOk(s, a) && a + RecLen(s, a) <= b
    ensures RecordOk(t, a) && RecLen(t, a) == RecLen(s, a) && OneEnt(t, a) == OneEnt(s, a)
  {
    hide U32At, U16At;
    FieldFrame(s, t, a, b);
  }

  /** One record tiles its own span. */
  lemma OneTile(s: seq<byte>, a: nat)
    requires RecordOk(s, a)
    ensures a + RecLen(s, a) <= |s| && Tiles(s, a, a + RecLen(s, a)) && Ents(s, a, a + RecLen(s, a)) == OneEnt(s, a)
  {
  }

  /** An encoded live record is well formed wherever it stands. */
  lemma EncodedOk(s: seq<byte>, at: nat, ino: nat, name: Name, len: nat)
    requires 0 < |name| <= MAXNAME && 0 < ino < U32 && DirSiz(|name|) <= len < U16 && at + len <= |s|
    requires s[at..at + len] == EncodeEntry(ino, name, len)
    ensures RecordOk(s, at) && RecLen(s, at) == len && OneEnt(s, at) == [Entry(name, ino)]
  {
    hide EncodeEntry, U32At, U16At;
    FieldShift(s, at, EncodeEntry(ino, name, len));
  }

  lemma BlankOk(s: seq<byte>, at: nat, len: nat)
    requires 8 <= len < U16 && at + len <= |s| && s[at..at + len] == EncodeEntry(0, [], len)
    ensures RecordOk(s, at) && RecLen(s, at) == len && OneEnt(s, at) == []
  {
    hide EncodeEntry, U32At, U16At;
    FieldShift(s, at, EncodeEntry(0, [], len));
  }

  /** Replacing a stretch of records by another tiling of the same stretch. */
  lemma Patch(s: seq<byte>, t: seq<byte>, a: nat, b: nat)
    requires a <= b <= |s| == |t| && s[..a] == t[..a] && s[b..] == t[b..]
    requires Tiles(s, 0, a) && Tiles(s, b, |s|) && Tiles(t, a, b)
    ensures Tiles(t, 0, |t|)
    ensures Ents(t, 0, |t|) == Ents(s, 0, a) + Ents(t, a, b) + Ents(s, b, |s|)
  {
    hide Tiles, Ents;
    assert s[0..a] == t[0..a] && s[b..|s|] == t[b..|t|];
    TilesFrame(s, t, 0, a);
    TilesFrame(s, t, b, |s|);
    Join(t, 0, a, b);
    Join(t, 0, b, |t|);
  }

  // --- insertion -------------------------------------------------------------

  /** Where a new record goes inside a block; `prev` is a live record to shorten first. */
  datatype Slot = Slot(at: nat, len: nat, prev: Option<(nat, nat)>)

  /** The slot is a blank record, or the slack of a live one, with room for `needed` bytes. */
  predicate SlotOk(s: seq<byte>, slot: Slot, needed: nat) {
    needed <= slot.len &&
    match slot.prev
    case None =>
      && slot.at <= |s| && Tiles(s, 0, slot.at) && RecordOk(s, slot.at) && Ino(s, slot.at) == 0
      && slot.len == RecLen(s, slot.at) && Tiles(s, slot.at + slot.len, |s|)
    case Some((p, m)) =>
      && p <= |s| && Tiles(s, 0, p) && RecordOk(s, p) && Ino(s, p) != 0 && m == DirSiz(NameLen(s, p))
      && slot.at == p + m && slot.len == RecLen(s, p) - m && Tiles(s, p + RecLen(s, p), |s|)
  }

  /** No record of `[a, b)` has room for `needed` bytes. */
  predicate Full(s: seq<byte>, a: nat, b: nat, needed: nat)
    requires b <= |s| && Tiles(s, a, b)
    decreases b - a
  {
    a == b || (
      && (if Ino(s, a) == 0 then RecLen(s, a) else RecLen(s, a) - DirSiz(NameLen(s, a))) < needed
      && Full(s, a + RecLen(s, a), b, needed))
  }

  /** `k` is what a record with a name of `n` bytes takes: header, name and zero byte, in whole words. */
  ghost predicate RecordSize(n: nat, k: nat) { k % 4 == 0 && 8 + n + 1 <= k < 8 + n + 1 + 4 }

  lemma DirSizIs(n: nat, k: nat)
    ensures RecordSize(n, k) <==> k == DirSiz(n)
  {
  }

  /** No record of `[a, b)` leaves room for a record with a name of `n` bytes. */
  ghost predicate Crowded(s: seq<byte>, a: nat, b: nat, n: nat)
    requires b <= |s| && Tiles(s, a, b)
    decreases b - a
  {
    a == b || (
      && (forall k, m: nat | RecordSize(n, k) && RecordSize(NameLen(s, a), m) ::
            (if Ino(s, a) == 0 then RecLen(s, a) else RecLen(s, a) - m) < k)
      && Crowded(s, a + RecLen(s, a), b, n))
  }

  lemma {:induction false} FullIsCrowded(s: seq<byte>, a: nat, b: nat, n: nat)
    requires b <= |s| && Tiles(s, a, b)
    ensures Full(s, a, b, DirSiz(n)) <==> Crowded(s, a, b, n)
    decreases b - a
  {
    hide DirSiz, RecordSize, Ino, RecLen, NameLen;
    if a != b {
      TileFits(s, a, b);
      FullIsCrowded(s, a + RecLen(s, a), b, n);
      DirSizIs(n, DirSiz(n));
      DirSizIs(NameLen(s, a), DirSiz(NameLen(s, a)));
      forall k: nat | RecordSize(n, k) ensures k == DirSiz(n) { DirSizIs(n, k); }
      forall m: nat | RecordSize(NameLen(s, a), m) ensures m == DirSiz(NameLen(s, a)) { DirSizIs(NameLen(s, a), m); }
    }
  }

  lemma {:induction false} FullJoin(s: seq<byte>, a: nat, c: nat, b: nat, needed: nat)
    requires c <= b <= |s| && Tiles(s, a, c) && Tiles(s, c, b) && Tiles(s, a, b)
    ensures Full(s, a, b, needed) <==> Full(s, a, c, needed) && Full(s, c, b, needed)
    decreases c - a
  {
    hide Ino, RecLen, NameLen, DirSiz;
    if a != c { FullJoin(s, a + RecLen(s, a), c, b, needed); }
  }

  /** The record a slot lies in. */
  function SlotStart(slot: Slot): nat { if slot.prev.None? then slot.at else slot.prev.value.0 }

  /** `find_insert_slot` within one block: the first record with room. */
  method FindSlot(s: seq<byte>, needed: nat) returns (r: Option<Slot>)
    requires Tiles(s, 0, |s|)
    ensures r.Some? ==> SlotOk(s, r.value, needed)
    ensures r.Some? ==> SlotStart(r.value) <= |s| && Tiles(s, 0, SlotStart(r.value)) && Full(s, 0, SlotStart(r.value), needed)
    ensures r.None? <==> Full(s, 0, |s|, needed)
  {
    hide Ino, RecLen, NameLen, DirSiz;
    var cursor := 0;
    assert Tiles(s, 0, 0);
    while cursor < |s|
      invariant cursor <= |s| && Tiles(s, 0, cursor) && Tiles(s, cursor, |s|)
      invariant Full(s, 0, cursor, needed) && (Full(s, 0, |s|, needed) <==> Full(s, cursor, |s|, needed))
    {
      var len := RecLen(s, cursor);
      if Ino(s, cursor) == 0 && len >= needed {
        return Some(Slot(cursor, len, None));
      }
      var minimal := DirSiz(NameLen(s, cursor));
      var available := if len >= minimal then len - minimal else 0;
      if Ino(s, cursor) != 0 && available >= needed {
        return Some(Slot(cursor + minimal, available, Some((cursor, minimal))));
      }
      OneTile(s, cursor);
      Join(s, 0, cursor, cursor + len);
      FullJoin(s, 0, cursor, cursor + len, needed);
      cursor := cursor + len;
    }
    return None;
  }

  /** `insert_entry` at a slot. */
  function Place(s: seq<byte>, slot: Slot, ino: nat, name: Name): (r: seq<byte>)
    requires SlotOk(s, slot, DirSiz(|name|)) && |s| < U16 && ino < U32
    ensures |r| == |s|
  {
    var needed := DirSiz(|name|);
    match slot.prev
    case Some((p, m)) =>
      var shortened := PutU16(s, p + 4, m);
      Splice(shortened, slot.at, EncodeEntry(ino, name, slot.len))
    case None =>
      if slot.len - needed >= 8 then
        var filled := Splice(s, slot.at + needed, EncodeEntry(0, [], slot.len - needed));
        Splice(filled, slot.at, EncodeEntry(ino, name, needed))
      else
        Splice(s, slot.at, EncodeEntry(ino, name, slot.len))
  }

  /** Entry `e` inserted at position `k`. */
  function InsertAt(es: seq<Entry>, k: nat, e: Entry): seq<Entry>
    requires k <= |es|
  {
    es[..k] + [e] + es[k..]
  }

  lemma PlacedBlank(s: seq<byte>, slot: Slot, ino: nat, name: Name)
    requires slot.prev.None? && SlotOk(s, slot, DirSiz(|name|)) && |s| < U16 && 0 < ino < U32 && 0 < |name| <= MAXNAME
    ensures var t := Place(s, slot, ino, name);
      Tiles(t, slot.at, slot.at + slot.len) && Ents(t, slot.at, slot.at + slot.len) == [Entry(name, ino)]
      && t[..slot.at] == s[..slot.at] && t[slot.at + slot.len..] == s[slot.at + slot.len..]
  {
    hide EncodeEntry, Tiles, Ents, RecordOk, Ino, RecLen, NameLen, Splice, SlotOk, DirSiz;
    BlankSlot(s, slot, DirSiz(|name|));
    SmallSize(name);
    var t, c, needed := Place(s, slot, ino, name), slot.at, DirSiz(|name|);
    if slot.len - needed >= 8 {
      SpliceTwice(s, c, EncodeEntry(ino, name, needed), EncodeEntry(0, [], slot.len - needed));
      SplitBlank(t, c, slot.len, ino, name, needed);
    } else {
      SpliceParts(s, c, EncodeEntry(ino, name, slot.len), 0, 0);
      EncodedOk(t, c, ino, name, slot.len);
      OneTile(t, c);
    }
  }

  lemma SmallSize(name: Name)
    ensures 8 + |name| < DirSiz(|name|)
  {
  }

  /** A blank record split into the new entry and a blank remainder. */
  lemma SplitBlank(t: seq<byte>, c: nat, len: nat, ino: nat, name: Name, needed: nat)
    requires 8 + |name| <= needed && needed + 8 <= len < U16 && c + len <= |t|
    requires DirSiz(|name|) <= needed && 0 < ino < U32 && 0 < |name| <= MAXNAME
    requires t[c..c + needed] == EncodeEntry(ino, name, needed) && t[c + needed..c + len] == EncodeEntry(0, [], len - needed)
    ensures Tiles(t, c, c + len) && Ents(t, c, c + len) == [Entry(name, ino)]
  {
    hide EncodeEntry, Tiles, Ents, RecordOk, Ino, RecLen, NameLen, DirSiz;
    EncodedOk(t, c, ino, name, needed);
    BlankOk(t, c + needed, len - needed);
    OneTile(t, c);
    OneTile(t, c + needed);
    Join(t, c, c + needed, c + len);
  }

  lemma BlankSlot(s: seq<byte>, slot: Slot, needed: nat)
    requires slot.prev.None? && SlotOk(s, slot, needed)
    ensures slot.at + slot.len <= |s| && needed <= slot.len
    ensures Tiles(s, 0, slot.at) && Tiles(s, slot.at, slot.at + slot.len) && Tiles(s, slot.at + slot.len, |s|)
    ensures Ents(s, slot.at, slot.at + slot.len) == []
  {
    OneTile(s, slot.at);
  }

  lemma LiveSlot(s: seq<byte>, slot: Slot, needed: nat)
    requires slot.prev.Some? && SlotOk(s, slot, needed)
    ensures var (p, m) := slot.prev.value;
      && p + 8 <= p + m == slot.at && slot.at + slot.len <= |s| && needed <= slot.len
      && Tiles(s, 0, p) && Tiles(s, p, slot.at + slot.len) && Tiles(s, slot.at + slot.len, |s|)
      && RecordOk(s, p) && Ino(s, p) != 0 && m == DirSiz(NameLen(s, p)) && slot.len == RecLen(s, p) - m && Ents(s, p, slot.at + slot.len) == OneEnt(s, p)
      && |OneEnt(s, p)| == 1
  {
    hide Ino, NameLen, RecLen;
    OneTile(s, slot.prev.value.0);
  }

  /** Storing a new length in a record changes no other field. */
  lemma Relength(s: seq<byte>, p: nat, m: nat)
    requires p + 8 <= |s| && m < U16
    ensures var u := PutU16(s, p + 4, m);
      && Ino(u, p) == Ino(s, p) && RecLen(u, p) == m && NameLen(u, p) == NameLen(s, p)
      && (p + 8 + NameLen(s, p) <= |s| ==> NameAt(u, p) == NameAt(s, p))
      && u[..p] == s[..p] && u[p + 8..] == s[p + 8..]
  {
    hide PutU16;
  }

  /** Shortening a live record to its minimal length keeps its entry. */
  lemma Shortened(s: seq<byte>, t: seq<byte>, p: nat, m: nat)
    requires |t| == |s| && RecordOk(s, p) && Ino(s, p) != 0 && m == DirSiz(NameLen(s, p)) <= RecLen(s, p)
    requires t[p..p + m] == PutU16(s, p + 4, m)[p..p + m]
    ensures RecordOk(t, p) && RecLen(t, p) == m && OneEnt(t, p) == OneEnt(s, p)
  {
    hide PutU16, U32At, U16At;
    Relength(s, p, m);
    FieldFrame(PutU16(s, p + 4, m), t, p, p + m);
  }

  lemma PlacedSlack(s: seq<byte>, t: seq<byte>, p: nat, m: nat, len: nat, ino: nat, name: Name)
    requires RecordOk(s, p) && Ino(s, p) != 0 && m == DirSiz(NameLen(s, p)) && m + len == RecLen(s, p) && p + m + len <= |s| < U16
    requires 0 < ino < U32 && 0 < |name| <= MAXNAME && DirSiz(|name|) <= len
    requires t == Splice(PutU16(s, p + 4, m), p + m, EncodeEntry(ino, name, len))
    ensures Tiles(t, p, p + m + len) && Ents(t, p, p + m + len) == OneEnt(s, p) + [Entry(name, ino)]
    ensures t[..p] == s[..p] && t[p + m + len..] == s[p + m + len..]
  {
    hide EncodeEntry, U32At, U16At, Tiles, Ents, RecordOk, Ino, RecLen, NameLen, Splice, PutU16, OneEnt;
    var u := PutU16(s, p + 4, m);
    Relength(s, p, m);
    SpliceParts(u, p + m, EncodeEntry(ino, name, len), p, p + m);
    SpliceParts(u, p + m, EncodeEntry(ino, name, len), 0, p);
    assert u[p + m + len..] == u[p + 8..][m + len - 8..];
    assert s[p + m + len..] == s[p + 8..][m + len - 8..];
    Shortened(s, t, p, m);
    EncodedOk(t, p + m, ino, name, len);
    OneTile(t, p);
    OneTile(t, p + m);
    Join(t, p, p + m, p + m + len);
  }

  /** Placing a record keeps the tiling and adds exactly that entry. */
  lemma PlaceOk(s: seq<byte>, slot: Slot, ino: nat, name: Name) returns (k: nat)
    requires SlotOk(s, slot, DirSiz(|name|)) && Tiles(s, 0, |s|) && |s| < U16 && 0 < ino < U32 && 0 < |name| <= MAXNAME
    ensures Tiles(Place(s, slot, ino, name), 0, |s|)
    ensures k <= |Ents(s, 0, |s|)| && Ents(Place(s, slot, ino, name), 0, |s|) == InsertAt(Ents(s, 0, |s|), k, Entry(name, ino))
    ensures SlotStart(slot) <= |s| && Tiles(s, 0, SlotStart(slot)) && k == |Ents(s, 0, SlotStart(slot))| + (if slot.prev.Some? then 1 else 0)
  {
    hide EncodeEntry, Tiles, Ents, RecordOk, Ino, RecLen, NameLen, Splice, SlotOk, PutU16, OneEnt;
    var t, end := Place(s, slot, ino, name), slot.at + slot.len;
    var start;
    if slot.prev.None? {
      start := slot.at;
      BlankSlot(s, slot, DirSiz(|name|));
      PlacedBlank(s, slot, ino, name);
    } else {
      start := slot.prev.value.0;
      LiveSlot(s, slot, DirSiz(|name|));
      PlacedSlack(s, t, start, slot.prev.value.1, slot.len, ino, name);
    }
    Patch(s, t, start, end);
    Join(s, start, end, |s|);
    Join(s, 0, start, |s|);
    k := |Ents(s, 0, start)| + |Ents(s, start, end)|;
  }

  // --- removal and rewriting -------------------------------------------------

  ghost predicate Absent(es: seq<Entry>, name: Name) {
    forall i | 0 <= i < |es| :: es[i].name != name
  }

  /** Position `k` holds the first entry called `name`. */
  ghost predicate FirstAt(es: seq<Entry>, k: nat, name: Name) {
    k < |es| && es[k].name == name && Absent(es[..k], name)
  }

  function RemoveAt(es: seq<Entry>, k: nat): seq<Entry>
    requires k < |es|
  {
    es[..k] + es[k + 1..]
  }

  /** Merging the record at `c` into its predecessor at `p`. */
  lemma Merged(s: seq<byte>, p: nat, c: nat)
    requires RecordOk(s, p) && c == p + RecLen(s, p) && RecordOk(s, c) && |s| < U16
    ensures var t, n := PutU16(s, p + 4, RecLen(s, p) + RecLen(s, c)), RecLen(s, p) + RecLen(s, c);
      && p + n <= |t| && Tiles(t, p, p + n) && Ents(t, p, p + n) == OneEnt(s, p)
      && t[..p] == s[..p] && t[p + n..] == s[p + n..]
  {
    hide PutU16, U32At, U16At;
    var n := RecLen(s, p) + RecLen(s, c);
    var t := PutU16(s, p + 4, n);
    Relength(s, p, n);
    assert t[p + n..] == t[p + 8..][n - 8..] && s[p + n..] == s[p + 8..][n - 8..];
    OneTile(t, p);
  }

  /** Overwriting the record at `c` with a blank one. */
  lemma Blanked(s: seq<byte>, c: nat)
    requires RecordOk(s, c) && |s| < U16
    ensures var n := RecLen(s, c);
      var t := Splice(s, c, EncodeEntry(0, [], n));
      && Tiles(t, c, c + n) && Ents(t, c, c + n) == [] && t[..c] == s[..c] && t[c + n..] == s[c + n..]
  {
    hide EncodeEntry, Splice, Ino, RecLen, NameLen;
    var n := RecLen(s, c);
    var t := Splice(s, c, EncodeEntry(0, [], n));
    SpliceParts(s, c, EncodeEntry(0, [], n), 0, 0);
    BlankOk(t, c, n);
    OneTile(t, c);
  }

  /** Replacing `[a, b)`, whose entries end with one at `c`, by a tiling without that entry. */
  lemma Dropped(s: seq<byte>, t: seq<byte>, a: nat, c: nat, b: nat, name: Name) returns (k: nat)
    requires a <= c <= b <= |s| == |t| && s[..a] == t[..a] && s[b..] == t[b..] && Tiles(t, a, b)
    requires Tiles(s, 0, a) && Tiles(s, a, c) && RecordOk(s, c) && b == c + RecLen(s, c) && Tiles(s, b, |s|)
    requires Ino(s, c) != 0 && NameAt(s, c) == name && Ents(t, a, b) == Ents(s, a, c)
    requires Absent(Ents(s, 0, a) + Ents(s, a, c), name)
    ensures Tiles(s, 0, |s|) && Tiles(t, 0, |t|)
    ensures FirstAt(Ents(s, 0, |s|), k, name) && Ents(t, 0, |t|) == RemoveAt(Ents(s, 0, |s|), k)
  {
    hide Tiles, Ents, RecordOk, Ino, RecLen, NameLen;
    OneTile(s, c);
    Join(s, a, c, b);
    Join(s, a, b, |s|);
    Join(s, 0, a, |s|);
    Patch(s, t, a, b);
    var before := Ents(s, 0, a) + Ents(s, a, c);
    k := |before|;
    assert Ents(s, 0, |s|) == before + OneEnt(s, c) + Ents(s, b, |s|);
    assert Ents(s, 0, |s|)[..k] == before;
  }

  /** The record at `c` is the first live one called `name`; `prev`, if any, is the record before it. */
  ghost predicate Found(s: seq<byte>, c: nat, prev: Option<nat>, name: Name) {
    && c <= |s| && Tiles(s, 0, c) && RecordOk(s, c) && Tiles(s, c + RecLen(s, c), |s|)
    && Ino(s, c) != 0 && NameAt(s, c) == name && Absent(Ents(s, 0, c), name)
    && (prev.Some? ==> Precedes(s, prev.value, c))
  }

  ghost predicate Precedes(s: seq<byte>, p: nat, c: nat) {
    p <= |s| && Tiles(s, 0, p) && RecordOk(s, p) && c == p + RecLen(s, p)
  }

  lemma NoRecords(s: seq<byte>)
    ensures Tiles(s, 0, 0) && Ents(s, 0, 0) == []
  {
  }

  /** The record a scan has come to, and what it leaves before and behind it. */
  lemma RecordHere(s: seq<byte>, c: nat)
    requires c < |s| && Tiles(s, 0, c) && Tiles(s, c, |s|)
    ensures RecordOk(s, c) && c + 8 <= |s| && c + 8 + NameLen(s, c) <= |s| && 0 < RecLen(s, c)
    ensures var b := c + RecLen(s, c);
      && b <= |s| && Tiles(s, 0, b) && Tiles(s, b, |s|) && Tiles(s, 0, |s|)
      && Ents(s, 0, b) == Ents(s, 0, c) + OneEnt(s, c) && Ents(s, 0, |s|) == Ents(s, 0, c) + OneEnt(s, c) + Ents(s, b, |s|)
  {
    hide Ino, NameLen, RecLen, OneEnt;
    OneTile(s, c);
    Join(s, 0, c, c + RecLen(s, c));
    Join(s, 0, c, |s|);
  }

  lemma Preceding(s: seq<byte>, p: nat)
    requires p <= |s| && Tiles(s, 0, p) && RecordOk(s, p)
    ensures Precedes(s, p, p + RecLen(s, p))
  {
    hide Tiles;
  }

  /** The name comparison of the record scan, on decoded text. */
  method SameText(raw: Name, name: Name) returns (r: bool)
    requires Ascii(name)
    ensures r <==> raw == name
  {
    hide Decoded;
    DecodedIs(raw, name);
    return Decoded(raw) == name;
  }

  /** Scans a block for a live record; the record at offset 0 never serves as predecessor. */
  method FindRecord(s: seq<byte>, name: Name) returns (r: Option<(nat, Option<nat>)>)
    requires |s| == DIRBLK && Tiles(s, 0, |s|) && Ascii(name)
    ensures r.None? <==> Absent(Ents(s, 0, |s|), name)
    ensures r.Some? ==> Found(s, r.value.0, r.value.1, name)
    ensures r.Some? && r.value.1.Some? ==> 0 < r.value.1.value
    ensures r.Some? && r.value.1.None? && r.value.0 != 0 ==> Precedes(s, 0, r.value.0)
  {
    hide Ino, RecLen, NameLen, Ascii, Precedes, Tiles, Ents, RecordOk;
    var cursor := 0;
    var previous: Option<nat> := None;
    NoRecords(s);
    while cursor < |s|
      invariant cursor <= |s| && Tiles(s, 0, cursor) && Tiles(s, cursor, |s|) && Absent(Ents(s, 0, cursor), name)
      invariant previous.Some? ==> Precedes(s, previous.value, cursor) && 0 < previous.value
      invariant previous.None? && cursor != 0 ==> Precedes(s, 0, cursor)
    {
      RecordHere(s, cursor);
      var len := RecLen(s, cursor);
      var same := SameText(NameAt(s, cursor), name);
      if same && Ino(s, cursor) != 0 {
        assert Ents(s, 0, |s|)[|Ents(s, 0, cursor)|].name == name;
        return Some((cursor, previous));
      }
      Preceding(s, cursor);
      previous := if cursor == 0 then None else Some(cursor);
      cursor := cursor + len;
    }
    return None;
  }

  /** The record at `c` went to the record before it, at `p`; or, at the start of the block or behind its first record,
      was blanked. */
  ghost predicate MergedAway(s: seq<byte>, t: seq<byte>, c: nat, p: nat, name: Name) {
    && Found(s, c, None, name) && (c != 0 ==> Precedes(s, p, c))
    && if c == 0 || p == 0 then t == Splice(s, c, EncodeEntry(0, [], RecLen(s, c)))
       else p + 6 <= |s| && t == PutU16(s, p + 4, RecLen(s, p) + RecLen(s, c))
  }

  /** `remove_entry`: merges the record into its predecessor, or blanks it in place. */
  method RemoveEntry(s: seq<byte>, name: Name) returns (r: Option<seq<byte>>, ghost k: nat)
    requires |s| == DIRBLK && Tiles(s, 0, |s|) && Ascii(name)
    ensures r.None? <==> Absent(Ents(s, 0, |s|), name)
    ensures r.Some? ==> |r.value| == |s| && Tiles(r.value, 0, |s|)
    ensures r.Some? ==> FirstAt(Ents(s, 0, |s|), k, name) && Ents(r.value, 0, |s|) == RemoveAt(Ents(s, 0, |s|), k)
    ensures r.Some? ==> exists c: nat, p: nat :: MergedAway(s, r.value, c, p, name)
  {
    hide Ino, RecLen, NameLen, EncodeEntry, Splice, PutU16, Tiles, Ents, FirstAt, RemoveAt, Absent;
    var found := FindRecord(s, name);
    if found.None? {
      return None, 0;
    }
    var (c, previous) := found.value;
    var len := RecLen(s, c);
    if previous.Some? {
      var p := previous.value;
      var t := PutU16(s, p + 4, RecLen(s, p) + len);
      Merged(s, p, c);
      OneTile(s, p);
      Join(s, 0, p, c);
      k := Dropped(s, t, p, c, c + len, name);
      assert MergedAway(s, t, c, p, name);
      return Some(t), k;
    }
    var t := Splice(s, c, EncodeEntry(0, [], len));
    Blanked(s, c);
    NothingBetween(s, c);
    k := Dropped(s, t, c, c, c + len, name);
    assert MergedAway(s, t, c, 0, name);
    return Some(t), k;
  }

  lemma NothingBetween(s: seq<byte>, c: nat)
    requires c <= |s| && Tiles(s, 0, c)
    ensures Tiles(s, c, c) && Ents(s, c, c) == [] && Ents(s, 0, c) + Ents(s, c, c) == Ents(s, 0, c)
  {
  }

  /** Storing a new inode number in a live record changes just that entry. */
  lemma Repointed(s: seq<byte>, c: nat, ino: nat)
    requires RecordOk(s, c) && Ino(s, c) != 0 && 0 < ino < U32
    ensures var t, n := PutU32(s, c, ino), RecLen(s, c);
      && Tiles(t, c, c + n) && Ents(t, c, c + n) == [Entry(NameAt(s, c), ino)] && t[..c] == s[..c] && t[c + n..] == s[c + n..]
  {
    hide PutU32;
    var t, n := PutU32(s, c, ino), RecLen(s, c);
    assert RecLen(t, c) == n && NameLen(t, c) == NameLen(s, c) && NameAt(t, c) == NameAt(s, c);
    assert t[c + n..] == s[c + n..];
    OneTile(t, c);
  }

  /** `rewrite_entry_inode`. */
  method RewriteEntryInode(s: seq<byte>, name: Name, ino: nat) returns (r: Option<seq<byte>>, ghost k: nat)
    requires |s| == DIRBLK && Tiles(s, 0, |s|) && Ascii(name) && 0 < ino < U32
    ensures r.None? <==> Absent(Ents(s, 0, |s|), name)
    ensures r.Some? ==> |r.value| == |s| && Tiles(r.value, 0, |s|)
    ensures r.Some? ==> FirstAt(Ents(s, 0, |s|), k, name) && Ents(r.value, 0, |s|) == Ents(s, 0, |s|)[k := Entry(name, ino)]
  {
    hide Ino, RecLen, NameLen, PutU32, Tiles, Ents, Absent, NameAt;
    var found := FindRecord(s, name);
    if found.None? {
      return None, 0;
    }
    var c := found.value.0;
    var t := PutU32(s, c, ino);
    Repointed(s, c, ino);
    k := Changed(s, t, c, name);
    return Some(t), k;
  }

  lemma Changed(s: seq<byte>, t: seq<byte>, c: nat, name: Name) returns (k: nat)
    requires Found(s, c, None, name) && |t| == |s| && c + RecLen(s, c) <= |s|
    requires Tiles(t, c, c + RecLen(s, c)) && |Ents(t, c, c + RecLen(s, c))| == 1
    requires t[..c] == s[..c] && t[c + RecLen(s, c)..] == s[c + RecLen(s, c)..]
    ensures Tiles(s, 0, |s|) && Tiles(t, 0, |t|) && FirstAt(Ents(s, 0, |s|), k, name)
    ensures Ents(t, 0, |t|) == Ents(s, 0, |s|)[k := Ents(t, c, c + RecLen(s, c))[0]]
  {
    hide Ino, RecLen, NameLen, Tiles, Ents;
    var b := c + RecLen(s, c);
    OneTile(s, c);
    Join(s, c, b, |s|);
    Join(s, 0, c, |s|);
    Patch(s, t, c, b);
    k := |Ents(s, 0, c)|;
    assert Ents(s, 0, |s|)[..k] == Ents(s, 0, c);
  }
}
