/** The integers of the typed fields and their bytes, lowest first. */
module Integers {
  import opened Bytes

  type int32 = x: int | -0x8000_0000 <= x < 0x8000_0000

  /** The n low bytes of v, lowest first. */
  function LittleEndian(n: nat, v: nat): (s: seq<byte>)
    ensures |s| == n
  {
    if n == 0 then [] else [v % 256] + LittleEndian(n - 1, v / 256)
  }

  function FromLittleEndian(s: seq<byte>): nat {
    if s == [] then 0 else s[0] + 256 * FromLittleEndian(s[1..])
  }

  function Power256(n: nat): nat {
    if n == 0 then 1 else 256 * Power256(n - 1)
  }

  /** `static_cast<uint32_t>(value)` and back. */
  function Unsigned(value: int32): (u: nat)
    ensures u < 0x1_0000_0000
  {
    value % 0x1_0000_0000
  }

  function Signed(u: nat): int32 {
    var r := u % 0x1_0000_0000;
    if r < 0x8000_0000 then r else r - 0x1_0000_0000
  }

  /** `b0 | (b1 << 8) | (b2 << 16) | (b3 << 24)`. */
  function Word32(b0: byte, b1: byte, b2: byte, b3: byte): nat {
    (b0 as int) + 0x100 * (b1 as int) + 0x1_0000 * (b2 as int) + 0x100_0000 * (b3 as int)
  }

  /** A value that fits n bytes is read back, and bytes that are read are written back. */
  lemma {:induction false} LittleEndianRoundTrip(n: nat, v: nat)
    requires v < Power256(n)
    ensures FromLittleEndian(LittleEndian(n, v)) == v
  {
    if n > 0 {
      LittleEndianRoundTrip(n - 1, v / 256);
      assert LittleEndian(n, v)[1..] == LittleEndian(n - 1, v / 256);
    }
  }

  lemma {:induction false} FromLittleEndianRoundTrip(s: seq<byte>)
    ensures FromLittleEndian(s) < Power256(|s|) && LittleEndian(|s|, FromLittleEndian(s)) == s
  {
    if s != [] {
      FromLittleEndianRoundTrip(s[1..]);
    }
  }

  /** A field added between others is what the matching getter returns at its place, sign included. */
  lemma TypedFieldsRoundTrip(before: seq<byte>, word: u16, value: int32, after: seq<byte>)
    ensures var p := before + LittleEndian(2, word) + LittleEndian(4, Unsigned(value)) + after;
            var i := |before|;
            && FromLittleEndian(p[i..i + 2]) == word
            && Signed(FromLittleEndian(p[i + 2..i + 6])) == value
  {
    var w, u := LittleEndian(2, word), LittleEndian(4, Unsigned(value));
    var p, i := before + w + u + after, |before|;
    assert p[i..i + 2] == w && p[i + 2..i + 6] == u;
    PowersOf256();
    LittleEndianRoundTrip(2, word);
    LittleEndianRoundTrip(4, Unsigned(value));
  }

  lemma PowersOf256()
    ensures Power256(2) == 0x1_0000 && Power256(4) == 0x1_0000_0000
  {
    assert Power256(1) == 256 && Power256(3) == 0x100_0000;
  }

  lemma TwoBytes(v: u16)
    ensures LittleEndian(2, v) == [v % 256, v / 256]
  {
    assert LittleEndian(1, v / 256) == [v / 256];
  }

  lemma FourBytes(u: nat)
    requires u < 0x1_0000_0000
    ensures LittleEndian(4, u) == [u % 256, u / 0x100 % 256, u / 0x1_0000 % 256, u / 0x100_0000]
  {
    var a, b, c := u / 0x100, u / 0x1_0000, u / 0x100_0000;
    assert a / 256 == b && b / 256 == c && c % 256 == c;
    assert LittleEndian(1, c) == [c];
    assert LittleEndian(2, b) == [b % 256, c];
    assert LittleEndian(3, a) == [a % 256, b % 256, c];
  }

  lemma FromTwoBytes(s: seq<byte>)
    requires |s| == 2
    ensures FromLittleEndian(s) == Word(s[0], s[1])
  {
    assert FromLittleEndian(s[1..]) == s[1];
  }

  lemma FromFourBytes(s: seq<byte>)
    requires |s| == 4
    ensures FromLittleEndian(s) == Word32(s[0], s[1], s[2], s[3])
  {
    FromTwoBytes(s[2..]);
    assert s[2..] == s[1..][1..] && s[2..][0] == s[2] && s[2..][1] == s[3];
  }
}
