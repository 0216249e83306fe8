/** Which changes of a message id the checksum of a version 1 frame misses: the id changes its extra
    byte as well, and in frames of some lengths the two changes could cancel. Going backwards from a
    change of the extra byte, byte by byte, shows where they do. */
module IdChanges {
  import opened Crc
  import opened Differences

  /** The checksum a byte earlier, if that byte was zero. */
  function ByteBack(c: bv16): bv16 {
    var tmp := (c >> 8) ^ (c >> 13);
    Mixed(tmp) | ((c ^ (tmp << 3) ^ (tmp >> 4)) << 8)
  }

  /** `tmp ^= tmp << 4` on the low byte. */
  function Mixed(t: bv16): bv16 {
    (t ^ (t << 4)) & 0xFF
  }

  lemma ByteBackInverts(c: bv16)
    ensures Accumulate(0, ByteBack(c)) == c
  {
    InSixteenBits(ByteBack(c));
    hide Accumulate;
    OnByteInverts(c);
  }

  /** The update without input, in 16-bit arithmetic only. */
  function OnByte(crc: bv16): bv16 {
    var tmp := Mixed(crc & 0xFF);
    Xor(Xor(Xor(crc >> 8, tmp << 8), tmp << 3), tmp >> 4)
  }

  lemma MixedInSixteenBits(c: bv16)
    ensures Mix(0 ^ Low(c)) as bv16 == Mixed(c & 0xFF)
  {}

  lemma Widened(tmp: bv8, t: bv16)
    requires tmp as bv16 == t
    ensures Up8(tmp) == t << 8 && Up3(tmp) == t << 3 && Down4(tmp) == t >> 4
  {}

  lemma InSixteenBits(c: bv16)
    ensures Accumulate(0, c) == OnByte(c)
  {
    var tmp, t := Mix(0 ^ Low(c)), Mixed(c & 0xFF);
    MixedInSixteenBits(c);
    Widened(tmp, t);
    hide Mix, Mixed, Low, Xor, Up8, Up3, Down4;
  }

  lemma OnByteInverts(c: bv16)
    ensures OnByte(ByteBack(c)) == c
  {
    var tmp := (c >> 8) ^ (c >> 13);
    hide Mixed, ByteBack;
    TmpIsSmall(c);
    MixedTwice(tmp);
    LowPart(c);
    HighPart(c);
    Recombined(c);
  }

  lemma TmpIsSmall(c: bv16)
    ensures (c >> 8) ^ (c >> 13) <= 0xFF
  {}

  lemma MixedTwice(t: bv16)
    requires t <= 0xFF
    ensures Mixed(Mixed(t)) == t
  {}

  lemma LowPart(c: bv16)
    ensures ByteBack(c) & 0xFF == Mixed((c >> 8) ^ (c >> 13))
  {}

  lemma HighPart(c: bv16)
    ensures var tmp := (c >> 8) ^ (c >> 13); ByteBack(c) >> 8 == (c ^ (tmp << 3) ^ (tmp >> 4)) & 0xFF
  {}

  lemma Recombined(c: bv16)
    ensures var tmp := (c >> 8) ^ (c >> 13);
            ((c ^ (tmp << 3) ^ (tmp >> 4)) & 0xFF) ^ (tmp << 8) ^ (tmp << 3) ^ (tmp >> 4) == c
  {}

  lemma ByteBackUndoes(c: bv16)
    ensures EightBits(ByteBack(c)) == c && ByteBack(EightBits(c)) == c
  {
    hide Accumulate, EightBits, ByteBack;
    ByteBackInverts(c);
    AccumulateZero(ByteBack(c));
    ByteBackInverts(EightBits(c));
    AccumulateZero(ByteBack(EightBits(c)));
    EightBitsInjective(ByteBack(EightBits(c)), c);
  }

  /** m bytes earlier. */
  function Earlier(m: nat, c: bv16): bv16 {
    Iterate(ByteBack, m, c)
  }

  /** Going m bytes on and going m bytes back are the same question. */
  lemma OnAndBack(m: nat, c: bv16, d: bv16)
    ensures Iterate(EightBits, m, c) == d <==> Earlier(m, d) == c
  {
    forall x: bv16
      ensures ByteBack(EightBits(x)) == x && EightBits(ByteBack(x)) == x
    {
      ByteBackUndoes(x);
    }
    hide EightBits, ByteBack;
    IterateInverse(EightBits, ByteBack, m, c);
    IterateInverse(ByteBack, EightBits, m, d);
  }

  // ---- Sixteen bytes at a time ------------------------------------------------------

  predicate IsByte(c: bv16) {
    c & 0xFF00 == 0
  }

  /** State number m fits a byte exactly if it is the one given. */
  predicate ByteOnlyAt(hit: nat, m: nat, c: bv16) {
    IsByte(c) <==> m == hit
  }

  predicate ByteOnlyAt4(hit: nat, m: nat, c: bv16) {
    && ByteOnlyAt(hit, m, c) && ByteOnlyAt(hit, m + 1, ByteBack(c)) && ByteOnlyAt(hit, m + 2, ByteBack(ByteBack(c)))
    && ByteOnlyAt(hit, m + 3, ByteBack(ByteBack(ByteBack(c))))
  }

  function Back4(c: bv16): bv16 {
    ByteBack(ByteBack(ByteBack(ByteBack(c))))
  }

  function Back16(c: bv16): bv16 {
    Back4(Back4(Back4(Back4(c))))
  }

  predicate ByteOnlyAt16(hit: nat, m: nat, c: bv16) {
    && ByteOnlyAt4(hit, m, c) && ByteOnlyAt4(hit, m + 4, Back4(c)) && ByteOnlyAt4(hit, m + 8, Back4(Back4(c)))
    && ByteOnlyAt4(hit, m + 12, Back4(Back4(Back4(c))))
  }

  /** The states from number `from` up to number `to`. */
  ghost predicate ByteOnlyIn(hit: nat, from: nat, to: nat, d: bv16) {
    forall m :: from <= m < to ==> ByteOnlyAt(hit, m, Earlier(m, d))
  }

  lemma FourEarlier(hit: nat, m: nat, d: bv16)
    requires ByteOnlyAt4(hit, m, Earlier(m, d))
    ensures ByteOnlyIn(hit, m, m + 4, d) && Earlier(m + 4, d) == Back4(Earlier(m, d))
  {
    hide ByteBack, ByteOnlyAt;
    IterateSnoc(ByteBack, m, d);
    IterateSnoc(ByteBack, m + 1, d);
    IterateSnoc(ByteBack, m + 2, d);
    IterateSnoc(ByteBack, m + 3, d);
  }

  lemma Sixteen(hit: nat, m: nat, d: bv16, c: bv16, next: bv16)
    requires Earlier(m, d) == c && ByteOnlyAt16(hit, m, c) && Back16(c) == next
    ensures ByteOnlyIn(hit, m, m + 16, d) && Earlier(m + 16, d) == next
  {
    hide ByteOnlyAt4, ByteOnlyAt, Back4, Earlier;
    FourEarlier(hit, m, d);
    FourEarlier(hit, m + 4, d);
    FourEarlier(hit, m + 8, d);
    FourEarlier(hit, m + 12, d);
  }

  // ---- The three changes of the extra byte, as far back as 256 bytes ---------------------

  lemma RcChannels1()
    ensures ByteOnlyIn(135, 1, 65, 118) && Earlier(65, 118) == 0xAC49
  {
    FirstEarlier(118);
    hide Earlier;
    Sixteen(135, 1, 118, 0x7600, 0x4E7C);
    Sixteen(135, 17, 118, 0x4E7C, 0x0340);
    Sixteen(135, 33, 118, 0x0340, 0x43B1);
    Sixteen(135, 49, 118, 0x43B1, 0xAC49);
  }

  lemma RcChannels65()
    requires Earlier(65, 118) == 0xAC49
    ensures ByteOnlyIn(135, 65, 129, 118) && Earlier(129, 118) == 0x784A
  {
    hide Earlier;
    Sixteen(135, 65, 118, 0xAC49, 0x089C);
    Sixteen(135, 81, 118, 0x089C, 0xFFC8);
    Sixteen(135, 97, 118, 0xFFC8, 0xF70A);
    Sixteen(135, 113, 118, 0xF70A, 0x784A);
  }

  lemma RcChannels129()
    requires Earlier(129, 118) == 0x784A
    ensures ByteOnlyIn(135, 129, 193, 118) && Earlier(193, 118) == 0xF4E2
  {
    hide Earlier;
    Sixteen(135, 129, 118, 0x784A, 0x7B57);
    Sixteen(135, 145, 118, 0x7B57, 0x238B);
    Sixteen(135, 161, 118, 0x238B, 0x8E64);
    Sixteen(135, 177, 118, 0x8E64, 0xF4E2);
  }

  lemma RcChannels193()
    requires Earlier(193, 118) == 0xF4E2
    ensures ByteOnlyIn(135, 193, 257, 118) && Earlier(257, 118) == 0x542D
  {
    hide Earlier;
    Sixteen(135, 193, 118, 0xF4E2, 0x3A75);
    Sixteen(135, 209, 118, 0x3A75, 0x6C29);
    Sixteen(135, 225, 118, 0x6C29, 0xAC58);
    Sixteen(135, 241, 118, 0xAC58, 0x542D);
  }

  lemma RcChannels()
    ensures ByteOnlyIn(135, 1, 257, 118)
    ensures Earlier(129, 118) == 0x784A
  {
    hide Earlier, ByteOnlyAt;
    RcChannels1();
    RcChannels65();
    RcChannels129();
    RcChannels193();
  }

  lemma CommandLong1()
    ensures ByteOnlyIn(26, 1, 65, 152) && Earlier(65, 152) == 0x4D8A
  {
    FirstEarlier(152);
    hide Earlier;
    Sixteen(26, 1, 152, 0x9800, 0xE83B);
    Sixteen(26, 17, 152, 0xE83B, 0x315C);
    Sixteen(26, 33, 152, 0x315C, 0xCAB3);
    Sixteen(26, 49, 152, 0xCAB3, 0x4D8A);
  }

  lemma CommandLong65()
    requires Earlier(65, 152) == 0x4D8A
    ensures ByteOnlyIn(26, 65, 129, 152) && Earlier(129, 152) == 0x1245
  {
    hide Earlier;
    Sixteen(26, 65, 152, 0x4D8A, 0xD1AE);
    Sixteen(26, 81, 152, 0xD1AE, 0x2243);
    Sixteen(26, 97, 152, 0x2243, 0x02C0);
    Sixteen(26, 113, 152, 0x02C0, 0x1245);
  }

  lemma CommandLong129()
    requires Earlier(129, 152) == 0x1245
    ensures ByteOnlyIn(26, 129, 193, 152) && Earlier(193, 152) == 0x2505
  {
    hide Earlier;
    Sixteen(26, 129, 152, 0x1245, 0xBB20);
    Sixteen(26, 145, 152, 0xBB20, 0x0C34);
    Sixteen(26, 161, 152, 0x0C34, 0x8B38);
    Sixteen(26, 177, 152, 0x8B38, 0x2505);
  }

  lemma CommandLong193()
    requires Earlier(193, 152) == 0x2505
    ensures ByteOnlyIn(26, 193, 257, 152) && Earlier(257, 152) == 0x5EB2
  {
    hide Earlier;
    Sixteen(26, 193, 152, 0x2505, 0xE3C5);
    Sixteen(26, 209, 152, 0xE3C5, 0x3447);
    Sixteen(26, 225, 152, 0x3447, 0x0A64);
    Sixteen(26, 241, 152, 0x0A64, 0x5EB2);
  }

  lemma CommandLong()
    ensures ByteOnlyIn(26, 1, 257, 152)
  {
    hide Earlier, ByteOnlyAt;
    CommandLong1();
    CommandLong65();
    CommandLong129();
    CommandLong193();
  }

  lemma Both1()
    ensures ByteOnlyIn(0, 1, 65, 238) && Earlier(65, 238) == 0xE1C3
  {
    FirstEarlier(238);
    hide Earlier;
    Sixteen(0, 1, 238, 0xEE00, 0xA647);
    Sixteen(0, 17, 238, 0xA647, 0x321C);
    Sixteen(0, 33, 238, 0x321C, 0x8902);
    Sixteen(0, 49, 238, 0x8902, 0xE1C3);
  }

  lemma Both65()
    requires Earlier(65, 238) == 0xE1C3
    ensures ByteOnlyIn(0, 65, 129, 238) && Earlier(129, 238) == 0x6A0F
  {
    hide Earlier;
    Sixteen(0, 65, 238, 0xE1C3, 0xD932);
    Sixteen(0, 81, 238, 0xD932, 0xDD8B);
    Sixteen(0, 97, 238, 0xDD8B, 0xF5CA);
    Sixteen(0, 113, 238, 0xF5CA, 0x6A0F);
  }

  lemma Both129()
    requires Earlier(129, 238) == 0x6A0F
    ensures ByteOnlyIn(0, 129, 193, 238) && Earlier(193, 238) == 0xD1E7
  {
    hide Earlier;
    Sixteen(0, 129, 238, 0x6A0F, 0xC077);
    Sixteen(0, 145, 238, 0xC077, 0x2FBF);
    Sixteen(0, 161, 238, 0x2FBF, 0x055C);
    Sixteen(0, 177, 238, 0x055C, 0xD1E7);
  }

  lemma Both193()
    requires Earlier(193, 238) == 0xD1E7
    ensures ByteOnlyIn(0, 193, 257, 238) && Earlier(257, 238) == 0x0A9F
  {
    hide Earlier;
    Sixteen(0, 193, 238, 0xD1E7, 0xD9B0);
    Sixteen(0, 209, 238, 0xD9B0, 0x586E);
    Sixteen(0, 225, 238, 0x586E, 0xA63C);
    Sixteen(0, 241, 238, 0xA63C, 0x0A9F);
  }

  lemma Both()
    ensures ByteOnlyIn(0, 1, 257, 238)
  {
    hide Earlier, ByteOnlyAt;
    Both1();
    Both65();
    Both129();
    Both193();
  }

  lemma FirstEarlier(d: bv16)
    ensures Earlier(1, d) == ByteBack(d)
  {
    hide ByteBack;
  }

  lemma TwoEarlier(m: nat, d: bv16)
    ensures Earlier(m + 2, d) == ByteBack(ByteBack(Earlier(m, d)))
  {
    hide ByteBack;
    IterateSnoc(ByteBack, m, d);
    IterateSnoc(ByteBack, m + 1, d);
  }

  lemma RcChannelsHit()
    requires Earlier(129, 118) == 0x784A
    ensures Earlier(135, 118) == 223
  {
    hide Earlier;
    TwoEarlier(129, 118);
    TwoEarlier(131, 118);
    TwoEarlier(133, 118);
  }

  lemma CommandLongHit()
    ensures Earlier(26, 152) == 174
  {
    hide Earlier;
    assert Earlier(2, 152) == ByteBack(ByteBack(152)) by {
      TwoEarlier(0, 152);
      NothingEarlier(152);
    }
    EightEarlier(2, 152);
    EightEarlier(10, 152);
    EightEarlier(18, 152);
  }

  lemma NothingEarlier(d: bv16)
    ensures Earlier(0, d) == d
  {}

  lemma EightEarlier(m: nat, d: bv16)
    ensures Earlier(m + 8, d) == Back4(Back4(Earlier(m, d)))
  {
    hide ByteBack, Earlier;
    TwoEarlier(m, d);
    TwoEarlier(m + 2, d);
    TwoEarlier(m + 4, d);
    TwoEarlier(m + 6, d);
  }

  // ---- When the two changes cancel ------------------------------------------------------------

  lemma ByteOnlyAtHit(hit: nat, d: bv16, n: nat, x: bv8)
    requires ByteOnlyIn(hit, 1, 257, d) && n < 256
    requires Earlier(n + 1, d) == x as bv16
    ensures n + 1 == hit
  {
    BytesAreBytes(x);
    hide IsByte, Earlier;
    assert ByteOnlyAt(hit, n + 1, Earlier(n + 1, d));
  }

  lemma BytesAreBytes(x: bv8)
    ensures IsByte(x as bv16)
  {}

  /** A changed id byte with n payload bytes behind it moves the checksum by as much as an exchange of
      the extra byte for that of RC_CHANNELS, COMMAND_LONG, or one of these for the other. */
  lemma CancelsIff(n: nat, x: bv8)
    requires n < 256
    ensures Iterate(EightBits, n + 1, x as bv16) == 118 <==> n == 134 && x == 223
    ensures Iterate(EightBits, n + 1, x as bv16) == 152 <==> n == 25 && x == 174
    ensures Iterate(EightBits, n + 1, x as bv16) != 238
  {
    OnAndBack(n + 1, x as bv16, 118);
    OnAndBack(n + 1, x as bv16, 152);
    OnAndBack(n + 1, x as bv16, 238);
    RcChannels();
    RcChannelsHit();
    CommandLong();
    CommandLongHit();
    Both();
    hide EightBits, Earlier, Iterate, ByteOnlyIn;
    if Earlier(n + 1, 118) == x as bv16 {
      ByteOnlyAtHit(135, 118, n, x);
      SameByte(x, 223);
    }
    if Earlier(n + 1, 152) == x as bv16 {
      ByteOnlyAtHit(26, 152, n, x);
      SameByte(x, 174);
    }
    if Earlier(n + 1, 238) == x as bv16 {
      ByteOnlyAtHit(0, 238, n, x);
    }
  }

  /** RC_CHANNELS for 158 or back in 134 bytes of payload, COMMAND_LONG for 226 or back in 25. */
  predicate MissedChange(a: bv8, b: bv8, length: nat) {
    || (length == 134 && ((a == 65 && b == 158) || (a == 158 && b == 65)))
    || (length == 25 && ((a == 76 && b == 226) || (a == 226 && b == 76)))
  }

  /** An id change that keeps the extra byte moves the checksum. */
  lemma NeverCancelsAlone(n: nat, x: bv8)
    requires x != 0
    ensures Iterate(EightBits, n + 1, x as bv16) != 0
  {
    OnAndBack(n + 1, x as bv16, 0);
    OnAndBack(n + 1, 0, 0);
    NothingStaysNothing(n + 1);
    hide EightBits, Earlier, Iterate;
    if Earlier(n + 1, 0) == x as bv16 {
      SameByte(x, 0);
    }
  }
}
