/** Little-endian field accessors over byte sequences, and byte-range updates. */
module Codec {
  import opened Geometry

  const U16: nat := 0x1_0000

  /** `d` copied over `s` at position `at`. */
  function Splice(s: seq<byte>, at: nat, d: seq<byte>): (r: seq<byte>)
    requires at + |d| <= |s|
    ensures |r| == |s|
    ensures forall i | 0 <= i < |s| :: r[i] == if at <= i < at + |d| then d[i - at] else s[i]
  {
    s[..at] + d + s[at + |d|..]
  }

  /** `n` zero bytes. */
  function Zeros(n: nat): (r: seq<byte>)
    ensures |r| == n && forall i | 0 <= i < n :: r[i] == 0
  {
    seq(n, _ => 0)
  }

  function U16At(s: seq<byte>, at: nat): (r: nat)
    requires at + 2 <= |s|
    ensures r < U16
  {
    var lo: int, hi: int := s[at], s[at + 1];
    lo + 256 * hi
  }

  function U32At(s: seq<byte>, at: nat): (r: nat)
    requires at + 4 <= |s|
    ensures r < U32
  {
    U16At(s, at) + U16 * U16At(s, at + 2)
  }

  /** The lowest byte comes first. */
  lemma LittleEndian(a: nat, b: nat, c: nat, d: nat)
    requires a < 256 && b < 256 && c < 256 && d < 256
    ensures U16At([a, b], 0) == a + 0x100 * b
    ensures U32At([a, b, c, d], 0) == a + 0x100 * b + 0x1_0000 * c + 0x100_0000 * d
  {
  }

  function Le16(x: nat): (r: seq<byte>)
    requires x < U16
    ensures |r| == 2 && U16At(r, 0) == x
  {
    [x % 256, x / 256]
  }

  function Le32(x: nat): (r: seq<byte>)
    requires x < U32
    ensures |r| == 4 && U32At(r, 0) == x
  {
    Le16(x % U16) + Le16(x / U16)
  }

  /** Stores the low 16 bits of `x` at `at`. */
  function PutU16(s: seq<byte>, at: nat, x: nat): (r: seq<byte>)
    requires at + 2 <= |s|
    ensures |r| == |s| && U16At(r, at) == x % U16
    ensures forall i | 0 <= i < |s| && !(at <= i < at + 2) :: r[i] == s[i]
  {
    Splice(s, at, Le16(x % U16))
  }

  /** Stores the low 32 bits of `x` at `at`. */
  function PutU32(s: seq<byte>, at: nat, x: nat): (r: seq<byte>)
    requires at + 4 <= |s|
    ensures |r| == |s| && U32At(r, at) == x % U32
    ensures forall i | 0 <= i < |s| && !(at <= i < at + 4) :: r[i] == s[i]
  {
    Splice(s, at, Le32(x % U32))
  }

  /** Writing one 32-bit slot leaves the other aligned slots alone. */
  lemma OtherSlot(s: seq<byte>, i: nat, j: nat, x: nat)
    requires 4 * i + 4 <= |s| && 4 * j + 4 <= |s| && i != j
    ensures U32At(PutU32(s, 4 * i, x), 4 * j) == U32At(s, 4 * j)
  {
    hide PutU32;
    var r := PutU32(s, 4 * i, x);
    assert r[4 * j] == s[4 * j] && r[4 * j + 1] == s[4 * j + 1] && r[4 * j + 2] == s[4 * j + 2] && r[4 * j + 3] == s[4 * j + 3];
  }

  lemma SliceOfSlice(s: seq<byte>, a: nat, b: nat, lo: nat, hi: nat)
    requires a <= b <= |s| && lo <= hi <= b - a
    ensures s[a..b][lo..hi] == s[a + lo..a + hi]
  {
    var x, y := s[a..b][lo..hi], s[a + lo..a + hi];
    assert forall i | 0 <= i < hi - lo :: x[i] == s[a..b][lo + i] == s[a + (lo + i)] == y[i];
  }

  lemma SpliceLeft(a: seq<byte>, b: seq<byte>, at: nat, d: seq<byte>)
    requires at + |d| <= |a|
    ensures Splice(a + b, at, d) == Splice(a, at, d) + b
  {
    hide Splice;
  }

  lemma SpliceRight(a: seq<byte>, b: seq<byte>, at: nat, d: seq<byte>)
    requires at + |d| <= |b|
    ensures Splice(a + b, |a| + at, d) == a + Splice(b, at, d)
  {
    hide Splice;
  }

  /** What a splice leaves in place and what it puts there. */
  lemma SpliceParts(s: seq<byte>, at: nat, d: seq<byte>, lo: nat, hi: nat)
    requires at + |d| <= |s| && lo <= hi <= |s|
    ensures Splice(s, at, d)[at..at + |d|] == d
    ensures Splice(s, at, d)[..at] == s[..at] && Splice(s, at, d)[at + |d|..] == s[at + |d|..]
    ensures hi <= at || at + |d| <= lo ==> Splice(s, at, d)[lo..hi] == s[lo..hi]
  {
    hide Splice;
  }

  /** Two adjacent splices, the later bytes written first. */
  lemma SpliceTwice(s: seq<byte>, at: nat, a: seq<byte>, b: seq<byte>)
    requires at + |a| + |b| <= |s|
    ensures var t := Splice(Splice(s, at + |a|, b), at, a);
      && t[at..at + |a|] == a && t[at + |a|..at + |a| + |b|] == b
      && t[..at] == s[..at] && t[at + |a| + |b|..] == s[at + |a| + |b|..]
  {
    hide Splice;
  }
}
