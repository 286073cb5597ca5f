// What the bit functions of SHA-1 compute, and the published value: the digest
// of "abc" (FIPS 180-1, appendix A).
module Sha1Values {
  import opened Sha1Standard

  // ---------------------------------------------------------- bit by bit

  lemma BitIsSetOrNot(x: Word, m: Word)
    requires m & (m - 1) == 0
    ensures x & m == 0 || x & m == m
  {
  }

  lemma OrSet(x: Word, y: Word, m: Word)
    requires x & m == m
    ensures (x | y) & m == m && (y | x) & m == m
  {
  }

  lemma OrClear(x: Word, y: Word, m: Word)
    requires x & m == 0 && y & m == 0
    ensures (x | y) & m == 0
  {
  }

  lemma AndClear(x: Word, y: Word, m: Word)
    requires x & m == 0
    ensures (x & y) & m == 0 && (y & x) & m == 0
  {
  }

  lemma AndSet(x: Word, y: Word, m: Word)
    requires x & m == m && y & m == m
    ensures (x & y) & m == m
  {
  }

  lemma NotSet(x: Word, m: Word)
    requires x & m == 0
    ensures (!x) & m == m
  {
  }

  lemma NotClear(x: Word, m: Word)
    requires x & m == m
    ensures (!x) & m == 0
  {
  }

  lemma XorClear(x: Word, y: Word, m: Word)
    requires x & m == y & m
    ensures (x ^ y) & m == 0
  {
  }

  lemma XorSet(x: Word, y: Word, m: Word)
    requires x & m == m && y & m == 0
    ensures (x ^ y) & m == m && (y ^ x) & m == m
  {
  }

  // Or, and, xor and complement, for the bit m.
  lemma BitOf(x: Word, y: Word, m: Word)
    requires m != 0 && m & (m - 1) == 0
    ensures (x | y) & m != 0 <==> x & m != 0 || y & m != 0
    ensures (x & y) & m != 0 <==> x & m != 0 && y & m != 0
    ensures (x ^ y) & m != 0 <==> ((x & m != 0) != (y & m != 0))
    ensures (!x) & m != 0 <==> x & m == 0
  {
    BitIsSetOrNot(x, m);
    BitIsSetOrNot(y, m);
    if x & m == 0 {
      AndClear(x, y, m);
      NotSet(x, m);
      if y & m == 0 {
        OrClear(x, y, m);
        XorClear(x, y, m);
      } else {
        OrSet(y, x, m);
        XorSet(y, x, m);
      }
    } else {
      OrSet(x, y, m);
      NotClear(x, m);
      if y & m == 0 {
        AndClear(y, x, m);
        XorSet(x, y, m);
      } else {
        AndSet(x, y, m);
        XorClear(x, y, m);
      }
    }
  }

  // A bit is chosen by b from c or d.
  lemma ChooseBit(b: Word, c: Word, d: Word, m: Word)
    requires m != 0 && m & (m - 1) == 0
    ensures Choose(b, c, d) & m != 0 <==> if b & m != 0 then c & m != 0 else d & m != 0
  {
    BitOf(b, c, m);
    BitOf(!b, d, m);
    BitOf(b & c, (!b) & d, m);
  }

  // A bit is set in an odd number of b, c and d.
  lemma ParityBit(b: Word, c: Word, d: Word, m: Word)
    requires m != 0 && m & (m - 1) == 0
    ensures Parity(b, c, d) & m != 0 <==> (((b & m != 0) != (c & m != 0)) != (d & m != 0))
  {
    BitOf(b, c, m);
    BitOf(b ^ c, d, m);
  }

  // A bit is set in at least two of b, c and d.
  lemma MajorityBit(b: Word, c: Word, d: Word, m: Word)
    requires m != 0 && m & (m - 1) == 0
    ensures Majority(b, c, d) & m != 0 <==>
      (b & m != 0 && c & m != 0) || (b & m != 0 && d & m != 0) || (c & m != 0 && d & m != 0)
  {
    BitOf(b, c, m);
    BitOf(b, d, m);
    BitOf(c, d, m);
    BitOf(b & c, b & d, m);
    BitOf((b & c) | (b & d), c & d, m);
  }

  // The last eight bytes of the padding.
  lemma LengthIs(n: nat)
    ensures BigEndian64(n) ==
      [(n / 72057594037927936 % 256) as Byte, (n / 281474976710656 % 256) as Byte, (n / 1099511627776 % 256) as Byte,
       (n / 4294967296 % 256) as Byte, (n / 16777216 % 256) as Byte, (n / 65536 % 256) as Byte, (n / 256 % 256) as Byte,
       (n % 256) as Byte]
  {
  }

  // -------------------------------------------------- the words of the block

  ghost predicate IsBlock(block: seq<Byte>) {
    |block| == 64 && block[0] == 0x61 && block[1] == 0x62 && block[2] == 0x63 && block[3] == 0x80 && block[63] == 24 &&
    forall i :: 4 <= i < 63 ==> block[i] == 0
  }

  // Word t is w.
  ghost predicate Is(block: seq<Byte>, t: nat, w: Word) {
    |block| == 64 && t < 80 && W(block, t) == w
  }

  lemma FirstWord(block: seq<Byte>, t: nat, w: Word)
    requires IsBlock(block) && t < 16 && w == WordOf(block[4 * t], block[4 * t + 1], block[4 * t + 2], block[4 * t + 3])
    ensures Is(block, t, w)
  {
    hide WordOf;
    WStep(block, t);
  }

  lemma NextWord(block: seq<Byte>, t: nat, w3: Word, w8: Word, w14: Word, w16: Word, w: Word)
    requires 16 <= t < 80 && w == Rotate(1, Xor4(w3, w8, w14, w16))
    requires Is(block, t - 3, w3) && Is(block, t - 8, w8) && Is(block, t - 14, w14) && Is(block, t - 16, w16)
    ensures Is(block, t, w)
  {
    hide Rotate, Xor4;
    WStep(block, t);
  }

  lemma ZeroWord()
    ensures WordOf(0, 0, 0, 0) == 0 && WordOf(0x61, 0x62, 0x63, 0x80) == 0x61626380 && WordOf(0, 0, 0, 24) == 0x18
  {
  }

  lemma Words0(block: seq<Byte>)
    requires IsBlock(block)
    ensures Is(block, 0, 0x61626380) && Is(block, 15, 0x00000018) && forall t :: 1 <= t < 15 ==> Is(block, t, 0x00000000)
  {
    hide WordOf, Is;
    ZeroWord();
    FirstWord(block, 0, 0x61626380);
    FirstWord(block, 15, 0x00000018);
    forall t | 1 <= t < 15 ensures Is(block, t, 0x00000000) {
      FirstWord(block, t, 0x00000000);
    }
  }

  lemma Words1(block: seq<Byte>)
    requires IsBlock(block)
    ensures Is(block, 16, 0xC2C4C700) && Is(block, 17, 0x00000000) && Is(block, 18, 0x00000030) && Is(block, 19, 0x85898E01)
    ensures Is(block, 20, 0x00000000) && Is(block, 21, 0x00000060) && Is(block, 22, 0x0B131C03) && Is(block, 23, 0x00000030)
  {
    hide Is;
    Words0(block);
    NextWord(block, 16, 0x00000000, 0x00000000, 0x00000000, 0x61626380, 0xC2C4C700);
    NextWord(block, 17, 0x00000000, 0x00000000, 0x00000000, 0x00000000, 0x00000000);
    NextWord(block, 18, 0x00000018, 0x00000000, 0x00000000, 0x00000000, 0x00000030);
    NextWord(block, 19, 0xC2C4C700, 0x00000000, 0x00000000, 0x00000000, 0x85898E01);
    NextWord(block, 20, 0x00000000, 0x00000000, 0x00000000, 0x00000000, 0x00000000);
    NextWord(block, 21, 0x00000030, 0x00000000, 0x00000000, 0x00000000, 0x00000060);
    NextWord(block, 22, 0x85898E01, 0x00000000, 0x00000000, 0x00000000, 0x0B131C03);
    NextWord(block, 23, 0x00000000, 0x00000018, 0x00000000, 0x00000000, 0x00000030);
  }

  lemma Words2(block: seq<Byte>)
    requires IsBlock(block)
    ensures Is(block, 24, 0x85898EC1) && Is(block, 25, 0x16263806) && Is(block, 26, 0x00000000) && Is(block, 27, 0x00000180)
    ensures Is(block, 28, 0x2C4C700C) && Is(block, 29, 0x000000F0) && Is(block, 30, 0x93AFB507) && Is(block, 31, 0x5898E048)
  {
    hide Is;
    Words0(block);
    Words1(block);
    NextWord(block, 24, 0x00000060, 0xC2C4C700, 0x00000000, 0x00000000, 0x85898EC1);
    NextWord(block, 25, 0x0B131C03, 0x00000000, 0x00000000, 0x00000000, 0x16263806);
    NextWord(block, 26, 0x00000030, 0x00000030, 0x00000000, 0x00000000, 0x00000000);
    NextWord(block, 27, 0x85898EC1, 0x85898E01, 0x00000000, 0x00000000, 0x00000180);
    NextWord(block, 28, 0x16263806, 0x00000000, 0x00000000, 0x00000000, 0x2C4C700C);
    NextWord(block, 29, 0x00000000, 0x00000060, 0x00000018, 0x00000000, 0x000000F0);
    NextWord(block, 30, 0x00000180, 0x0B131C03, 0xC2C4C700, 0x00000000, 0x93AFB507);
    NextWord(block, 31, 0x2C4C700C, 0x00000030, 0x00000000, 0x00000018, 0x5898E048);
  }

  lemma Words3(block: seq<Byte>)
    requires IsBlock(block)
    ensures Is(block, 32, 0x8E9A9202) && Is(block, 33, 0x00000600) && Is(block, 34, 0xB131C0F0) && Is(block, 35, 0x16263BC6)
    ensures Is(block, 36, 0x4EBED41E) && Is(block, 37, 0x626380A1) && Is(block, 38, 0x16263806) && Is(block, 39, 0x000018C0)
  {
    hide Is;
    Words1(block);
    Words2(block);
    NextWord(block, 32, 0x000000F0, 0x85898EC1, 0x00000030, 0xC2C4C700, 0x8E9A9202);
    NextWord(block, 33, 0x93AFB507, 0x16263806, 0x85898E01, 0x00000000, 0x00000600);
    NextWord(block, 34, 0x5898E048, 0x00000000, 0x00000000, 0x00000030, 0xB131C0F0);
    NextWord(block, 35, 0x8E9A9202, 0x00000180, 0x00000060, 0x85898E01, 0x16263BC6);
    NextWord(block, 36, 0x00000600, 0x2C4C700C, 0x0B131C03, 0x00000000, 0x4EBED41E);
    NextWord(block, 37, 0xB131C0F0, 0x000000F0, 0x00000030, 0x00000060, 0x626380A1);
    NextWord(block, 38, 0x16263BC6, 0x93AFB507, 0x85898EC1, 0x0B131C03, 0x16263806);
    NextWord(block, 39, 0x4EBED41E, 0x5898E048, 0x16263806, 0x00000030, 0x000018C0);
  }

  lemma Words4(block: seq<Byte>)
    requires IsBlock(block)
    ensures Is(block, 40, 0xD2E138C4) && Is(block, 41, 0x00000F00) && Is(block, 42, 0x3AFB5079) && Is(block, 43, 0x898E04E5)
    ensures Is(block, 44, 0xE2BA3C2B) && Is(block, 45, 0x000060C0) && Is(block, 46, 0x053A37CD) && Is(block, 47, 0x74458547)
  {
    hide Is;
    Words2(block);
    Words3(block);
    NextWord(block, 40, 0x626380A1, 0x8E9A9202, 0x00000000, 0x85898EC1, 0xD2E138C4);
    NextWord(block, 41, 0x16263806, 0x00000600, 0x00000180, 0x16263806, 0x00000F00);
    NextWord(block, 42, 0x000018C0, 0xB131C0F0, 0x2C4C700C, 0x00000000, 0x3AFB5079);
    NextWord(block, 43, 0xD2E138C4, 0x16263BC6, 0x000000F0, 0x00000180, 0x898E04E5);
    NextWord(block, 44, 0x00000F00, 0x4EBED41E, 0x93AFB507, 0x2C4C700C, 0xE2BA3C2B);
    NextWord(block, 45, 0x3AFB5079, 0x626380A1, 0x5898E048, 0x000000F0, 0x000060C0);
    NextWord(block, 46, 0x898E04E5, 0x16263806, 0x8E9A9202, 0x93AFB507, 0x053A37CD);
    NextWord(block, 47, 0xE2BA3C2B, 0x000018C0, 0x00000600, 0x5898E048, 0x74458547);
  }

  lemma Words5(block: seq<Byte>)
    requires IsBlock(block)
    ensures Is(block, 48, 0xDA9415ED) && Is(block, 49, 0x26380A16) && Is(block, 50, 0x626383A1) && Is(block, 51, 0x4EBF54DE)
    ensures Is(block, 52, 0x3835B44B) && Is(block, 53, 0x0000F600) && Is(block, 54, 0x1E84C7A3) && Is(block, 55, 0x98E04D98)
  {
    hide Is;
    Words3(block);
    Words4(block);
    NextWord(block, 48, 0x000060C0, 0xD2E138C4, 0xB131C0F0, 0x8E9A9202, 0xDA9415ED);
    NextWord(block, 49, 0x053A37CD, 0x00000F00, 0x16263BC6, 0x00000600, 0x26380A16);
    NextWord(block, 50, 0x74458547, 0x3AFB5079, 0x4EBED41E, 0xB131C0F0, 0x626383A1);
    NextWord(block, 51, 0xDA9415ED, 0x898E04E5, 0x626380A1, 0x16263BC6, 0x4EBF54DE);
    NextWord(block, 52, 0x26380A16, 0xE2BA3C2B, 0x16263806, 0x4EBED41E, 0x3835B44B);
    NextWord(block, 53, 0x626383A1, 0x000060C0, 0x000018C0, 0x626380A1, 0x0000F600);
    NextWord(block, 54, 0x4EBF54DE, 0x053A37CD, 0xD2E138C4, 0x16263806, 0x1E84C7A3);
    NextWord(block, 55, 0x3835B44B, 0x74458547, 0x00000F00, 0x000018C0, 0x98E04D98);
  }

  lemma Words6(block: seq<Byte>)
    requires IsBlock(block)
    ensures Is(block, 56, 0x651D16A0) && Is(block, 57, 0x62658CA1) && Is(block, 58, 0x458544D6) && Is(block, 59, 0x44584CB7)
    ensures Is(block, 60, 0x7BA06619) && Is(block, 61, 0x6380AEA2) && Is(block, 62, 0x0AE55269) && Is(block, 63, 0x627B49A1)
  {
    hide Is;
    Words4(block);
    Words5(block);
    NextWord(block, 56, 0x0000F600, 0xDA9415ED, 0x3AFB5079, 0xD2E138C4, 0x651D16A0);
    NextWord(block, 57, 0x1E84C7A3, 0x26380A16, 0x898E04E5, 0x00000F00, 0x62658CA1);
    NextWord(block, 58, 0x98E04D98, 0x626383A1, 0xE2BA3C2B, 0x3AFB5079, 0x458544D6);
    NextWord(block, 59, 0x651D16A0, 0x4EBF54DE, 0x000060C0, 0x898E04E5, 0x44584CB7);
    NextWord(block, 60, 0x62658CA1, 0x3835B44B, 0x053A37CD, 0xE2BA3C2B, 0x7BA06619);
    NextWord(block, 61, 0x458544D6, 0x0000F600, 0x74458547, 0x000060C0, 0x6380AEA2);
    NextWord(block, 62, 0x44584CB7, 0x1E84C7A3, 0xDA9415ED, 0x053A37CD, 0x0AE55269);
    NextWord(block, 63, 0x7BA06619, 0x98E04D98, 0x26380A16, 0x74458547, 0x627B49A1);
  }

  lemma Words7(block: seq<Byte>)
    requires IsBlock(block)
    ensures Is(block, 64, 0x7CD45C9D) && Is(block, 65, 0x000F0000) && Is(block, 66, 0xFB50753A) && Is(block, 67, 0xEC6765E8)
    ensures Is(block, 68, 0xBA3C2BE2) && Is(block, 69, 0x0060C000) && Is(block, 70, 0x3A37CD05) && Is(block, 71, 0x458546F4)
  {
    hide Is;
    Words5(block);
    Words6(block);
    NextWord(block, 64, 0x6380AEA2, 0x651D16A0, 0x626383A1, 0xDA9415ED, 0x7CD45C9D);
    NextWord(block, 65, 0x0AE55269, 0x62658CA1, 0x4EBF54DE, 0x26380A16, 0x000F0000);
    NextWord(block, 66, 0x627B49A1, 0x458544D6, 0x3835B44B, 0x626383A1, 0xFB50753A);
    NextWord(block, 67, 0x7CD45C9D, 0x44584CB7, 0x0000F600, 0x4EBF54DE, 0xEC6765E8);
    NextWord(block, 68, 0x000F0000, 0x7BA06619, 0x1E84C7A3, 0x3835B44B, 0xBA3C2BE2);
    NextWord(block, 69, 0xFB50753A, 0x6380AEA2, 0x98E04D98, 0x0000F600, 0x0060C000);
    NextWord(block, 70, 0xEC6765E8, 0x0AE55269, 0x651D16A0, 0x1E84C7A3, 0x3A37CD05);
    NextWord(block, 71, 0xBA3C2BE2, 0x627B49A1, 0x62658CA1, 0x98E04D98, 0x458546F4);
  }

  lemma Words8(block: seq<Byte>)
    requires IsBlock(block)
    ensures Is(block, 72, 0xB8599DD6) && Is(block, 73, 0x380A1A26) && Is(block, 74, 0x01E02203) && Is(block, 75, 0xE7CC3456)
    ensures Is(block, 76, 0xE6E60B69) && Is(block, 77, 0x00F60A00) && Is(block, 78, 0x5795EF4F) && Is(block, 79, 0x822E0879)
  {
    hide Is;
    Words6(block);
    Words7(block);
    NextWord(block, 72, 0x0060C000, 0x7CD45C9D, 0x458544D6, 0x651D16A0, 0xB8599DD6);
    NextWord(block, 73, 0x3A37CD05, 0x000F0000, 0x44584CB7, 0x62658CA1, 0x380A1A26);
    NextWord(block, 74, 0x458546F4, 0xFB50753A, 0x7BA06619, 0x458544D6, 0x01E02203);
    NextWord(block, 75, 0xB8599DD6, 0xEC6765E8, 0x6380AEA2, 0x44584CB7, 0xE7CC3456);
    NextWord(block, 76, 0x380A1A26, 0xBA3C2BE2, 0x0AE55269, 0x7BA06619, 0xE6E60B69);
    NextWord(block, 77, 0x01E02203, 0x0060C000, 0x627B49A1, 0x6380AEA2, 0x00F60A00);
    NextWord(block, 78, 0xE7CC3456, 0x3A37CD05, 0x7CD45C9D, 0x0AE55269, 0x5795EF4F);
    NextWord(block, 79, 0xE6E60B69, 0x458546F4, 0x000F0000, 0x627B49A1, 0x822E0879);
  }

  // -------------------------------------------------------- the eighty rounds

  // The five buffers after t rounds.
  ghost predicate At(block: seq<Byte>, t: nat, a: Word, b: Word, c: Word, d: Word, e: Word) {
    |block| == 64 && t <= 80 && Rounds(Initial, block, t) == State(a, b, c, d, e)
  }

  lemma ChooseRound(block: seq<Byte>, t: nat, a: Word, b: Word, c: Word, d: Word, e: Word, w: Word, a': Word, c': Word)
    requires t < 20 && At(block, t, a, b, c, d, e) && Is(block, t, w)
    requires a' == Sum(Rotate(5, a), Choose(b, c, d), e, w, 0x5A827999) && c' == Rotate(30, b)
    ensures At(block, t + 1, a', a, c', c, d)
  {
    hide Rotate, Choose, Parity, Majority, Sum;
    RoundsStep(Initial, block, t);
  }

  lemma SecondRound(block: seq<Byte>, t: nat, a: Word, b: Word, c: Word, d: Word, e: Word, w: Word, a': Word, c': Word)
    requires 20 <= t < 40 && At(block, t, a, b, c, d, e) && Is(block, t, w)
    requires a' == Sum(Rotate(5, a), Parity(b, c, d), e, w, 0x6ED9EBA1) && c' == Rotate(30, b)
    ensures At(block, t + 1, a', a, c', c, d)
  {
    hide Rotate, Choose, Parity, Majority, Sum;
    RoundsStep(Initial, block, t);
  }

  lemma MajorityRound(block: seq<Byte>, t: nat, a: Word, b: Word, c: Word, d: Word, e: Word, w: Word, a': Word, c': Word)
    requires 40 <= t < 60 && At(block, t, a, b, c, d, e) && Is(block, t, w)
    requires a' == Sum(Rotate(5, a), Majority(b, c, d), e, w, 0x8F1BBCDC) && c' == Rotate(30, b)
    ensures At(block, t + 1, a', a, c', c, d)
  {
    hide Rotate, Choose, Parity, Majority, Sum;
    RoundsStep(Initial, block, t);
  }

  lemma LastRound(block: seq<Byte>, t: nat, a: Word, b: Word, c: Word, d: Word, e: Word, w: Word, a': Word, c': Word)
    requires 60 <= t < 80 && At(block, t, a, b, c, d, e) && Is(block, t, w)
    requires a' == Sum(Rotate(5, a), Parity(b, c, d), e, w, 0xCA62C1D6) && c' == Rotate(30, b)
    ensures At(block, t + 1, a', a, c', c, d)
  {
    hide Rotate, Choose, Parity, Majority, Sum;
    RoundsStep(Initial, block, t);
  }

  lemma Rounds0To5(block: seq<Byte>)
    requires IsBlock(block) && At(block, 0, 0x67452301, 0xEFCDAB89, 0x98BADCFE, 0x10325476, 0xC3D2E1F0)
    ensures At(block, 5, 0xCFD499DE, 0xCDD8E11B, 0x284E43C2, 0x626414DB, 0xC045BF0C)
  {
    hide At, Is;
    Words0(block);
    ChooseRound(block, 0, 0x67452301, 0xEFCDAB89, 0x98BADCFE, 0x10325476, 0xC3D2E1F0, 0x61626380, 0x0116FC33, 0x7BF36AE2);
    ChooseRound(block, 1, 0x0116FC33, 0x67452301, 0x7BF36AE2, 0x98BADCFE, 0x10325476, 0x00000000, 0x8990536D, 0x59D148C0);
    ChooseRound(block, 2, 0x8990536D, 0x0116FC33, 0x59D148C0, 0x7BF36AE2, 0x98BADCFE, 0x00000000, 0xA1390F08, 0xC045BF0C);
    ChooseRound(block, 3, 0xA1390F08, 0x8990536D, 0xC045BF0C, 0x59D148C0, 0x7BF36AE2, 0x00000000, 0xCDD8E11B, 0x626414DB);
    ChooseRound(block, 4, 0xCDD8E11B, 0xA1390F08, 0x626414DB, 0xC045BF0C, 0x59D148C0, 0x00000000, 0xCFD499DE, 0x284E43C2);
  }

  lemma Rounds5To10(block: seq<Byte>)
    requires IsBlock(block) && At(block, 5, 0xCFD499DE, 0xCDD8E11B, 0x284E43C2, 0x626414DB, 0xC045BF0C)
    ensures At(block, 10, 0x8351F929, 0x4B6AE328, 0x27A301F5, 0x664F8C30, 0x0FF1F290)
  {
    hide At, Is;
    Words0(block);
    ChooseRound(block, 5, 0xCFD499DE, 0xCDD8E11B, 0x284E43C2, 0x626414DB, 0xC045BF0C, 0x00000000, 0x3FC7CA40, 0xF3763846);
    ChooseRound(block, 6, 0x3FC7CA40, 0xCFD499DE, 0xF3763846, 0x284E43C2, 0x626414DB, 0x00000000, 0x993E30C1, 0xB3F52677);
    ChooseRound(block, 7, 0x993E30C1, 0x3FC7CA40, 0xB3F52677, 0xF3763846, 0x284E43C2, 0x00000000, 0x9E8C07D4, 0x0FF1F290);
    ChooseRound(block, 8, 0x9E8C07D4, 0x993E30C1, 0x0FF1F290, 0xB3F52677, 0xF3763846, 0x00000000, 0x4B6AE328, 0x664F8C30);
    ChooseRound(block, 9, 0x4B6AE328, 0x9E8C07D4, 0x664F8C30, 0x0FF1F290, 0xB3F52677, 0x00000000, 0x8351F929, 0x27A301F5);
  }

  lemma Rounds10To15(block: seq<Byte>)
    requires IsBlock(block) && At(block, 10, 0x8351F929, 0x4B6AE328, 0x27A301F5, 0x664F8C30, 0x0FF1F290)
    ensures At(block, 15, 0x196BEE77, 0x9128F695, 0x1181ED99, 0x18C623F9, 0x7EF6A7A2)
  {
    hide At, Is;
    Words0(block);
    ChooseRound(block, 10, 0x8351F929, 0x4B6AE328, 0x27A301F5, 0x664F8C30, 0x0FF1F290, 0x00000000, 0xFBDA9E89, 0x12DAB8CA);
    ChooseRound(block, 11, 0xFBDA9E89, 0x8351F929, 0x12DAB8CA, 0x27A301F5, 0x664F8C30, 0x00000000, 0x63188FE4, 0x60D47E4A);
    ChooseRound(block, 12, 0x63188FE4, 0xFBDA9E89, 0x60D47E4A, 0x12DAB8CA, 0x27A301F5, 0x00000000, 0x4607B664, 0x7EF6A7A2);
    ChooseRound(block, 13, 0x4607B664, 0x63188FE4, 0x7EF6A7A2, 0x60D47E4A, 0x12DAB8CA, 0x00000000, 0x9128F695, 0x18C623F9);
    ChooseRound(block, 14, 0x9128F695, 0x4607B664, 0x18C623F9, 0x7EF6A7A2, 0x60D47E4A, 0x00000000, 0x196BEE77, 0x1181ED99);
  }

  lemma Rounds15To20(block: seq<Byte>)
    requires IsBlock(block) && At(block, 15, 0x196BEE77, 0x9128F695, 0x1181ED99, 0x18C623F9, 0x7EF6A7A2)
    ensures At(block, 20, 0xFD9E1D7D, 0xDC64901D, 0x20AA99CA, 0xD3A49608, 0xC82F758B)
  {
    hide At, Is;
    Words0(block);
    Words1(block);
    ChooseRound(block, 15, 0x196BEE77, 0x9128F695, 0x1181ED99, 0x18C623F9, 0x7EF6A7A2, 0x00000018, 0x20BDD62F, 0x644A3DA5);
    ChooseRound(block, 16, 0x20BDD62F, 0x196BEE77, 0x644A3DA5, 0x1181ED99, 0x18C623F9, 0xC2C4C700, 0x4E925823, 0xC65AFB9D);
    ChooseRound(block, 17, 0x4E925823, 0x20BDD62F, 0xC65AFB9D, 0x644A3DA5, 0x1181ED99, 0x00000000, 0x82AA6728, 0xC82F758B);
    ChooseRound(block, 18, 0x82AA6728, 0x4E925823, 0xC82F758B, 0xC65AFB9D, 0x644A3DA5, 0x00000030, 0xDC64901D, 0xD3A49608);
    ChooseRound(block, 19, 0xDC64901D, 0x82AA6728, 0xD3A49608, 0xC82F758B, 0xC65AFB9D, 0x85898E01, 0xFD9E1D7D, 0x20AA99CA);
  }

  lemma Rounds20To25(block: seq<Byte>)
    requires IsBlock(block) && At(block, 20, 0xFD9E1D7D, 0xDC64901D, 0x20AA99CA, 0xD3A49608, 0xC82F758B)
    ensures At(block, 25, 0xC7567DC6, 0xD541F12D, 0x884A0D21, 0x0CE88EFF, 0x868DEC32)
  {
    hide At, Is;
    Words1(block);
    Words2(block);
    SecondRound(block, 20, 0xFD9E1D7D, 0xDC64901D, 0x20AA99CA, 0xD3A49608, 0xC82F758B, 0x00000000, 0x1A37B0CA, 0x77192407);
    SecondRound(block, 21, 0x1A37B0CA, 0xFD9E1D7D, 0x77192407, 0x20AA99CA, 0xD3A49608, 0x00000060, 0x33A23BFC, 0x7F67875F);
    SecondRound(block, 22, 0x33A23BFC, 0x1A37B0CA, 0x7F67875F, 0x77192407, 0x20AA99CA, 0x0B131C03, 0x21283486, 0x868DEC32);
    SecondRound(block, 23, 0x21283486, 0x33A23BFC, 0x868DEC32, 0x7F67875F, 0x77192407, 0x00000030, 0xD541F12D, 0x0CE88EFF);
    SecondRound(block, 24, 0xD541F12D, 0x21283486, 0x0CE88EFF, 0x868DEC32, 0x7F67875F, 0x85898EC1, 0xC7567DC6, 0x884A0D21);
  }

  lemma Rounds25To30(block: seq<Byte>)
    requires IsBlock(block) && At(block, 25, 0xC7567DC6, 0xD541F12D, 0x884A0D21, 0x0CE88EFF, 0x868DEC32)
    ensures At(block, 30, 0xC5FBAF5D, 0x8370B52E, 0xD2AA1365, 0x6F8D7EF5, 0x12104EE9)
  {
    hide At, Is;
    Words2(block);
    SecondRound(block, 25, 0xC7567DC6, 0xD541F12D, 0x884A0D21, 0x0CE88EFF, 0x868DEC32, 0x16263806, 0x48413BA4, 0x75507C4B);
    SecondRound(block, 26, 0x48413BA4, 0xC7567DC6, 0x75507C4B, 0x884A0D21, 0x0CE88EFF, 0x00000000, 0xBE35FBD5, 0xB1D59F71);
    SecondRound(block, 27, 0xBE35FBD5, 0x48413BA4, 0xB1D59F71, 0x75507C4B, 0x884A0D21, 0x00000180, 0x4AA84D97, 0x12104EE9);
    SecondRound(block, 28, 0x4AA84D97, 0xBE35FBD5, 0x12104EE9, 0xB1D59F71, 0x75507C4B, 0x2C4C700C, 0x8370B52E, 0x6F8D7EF5);
    SecondRound(block, 29, 0x8370B52E, 0x4AA84D97, 0x6F8D7EF5, 0x12104EE9, 0xB1D59F71, 0x000000F0, 0xC5FBAF5D, 0xD2AA1365);
  }

  lemma Rounds30To35(block: seq<Byte>)
    requires IsBlock(block) && At(block, 30, 0xC5FBAF5D, 0x8370B52E, 0xD2AA1365, 0x6F8D7EF5, 0x12104EE9)
    ensures At(block, 35, 0x21796AD4, 0x2C0EBC11, 0x811BEA82, 0xCEE1174C, 0xC499ED01)
  {
    hide At, Is;
    Words2(block);
    Words3(block);
    SecondRound(block, 30, 0xC5FBAF5D, 0x8370B52E, 0xD2AA1365, 0x6F8D7EF5, 0x12104EE9, 0x93AFB507, 0x1267B407, 0xA0DC2D4B);
    SecondRound(block, 31, 0x1267B407, 0xC5FBAF5D, 0xA0DC2D4B, 0xD2AA1365, 0x6F8D7EF5, 0x5898E048, 0x3B845D33, 0x717EEBD7);
    SecondRound(block, 32, 0x3B845D33, 0x1267B407, 0x717EEBD7, 0xA0DC2D4B, 0xD2AA1365, 0x8E9A9202, 0x046FAA0A, 0xC499ED01);
    SecondRound(block, 33, 0x046FAA0A, 0x3B845D33, 0xC499ED01, 0x717EEBD7, 0xA0DC2D4B, 0x00000600, 0x2C0EBC11, 0xCEE1174C);
    SecondRound(block, 34, 0x2C0EBC11, 0x046FAA0A, 0xCEE1174C, 0xC499ED01, 0x717EEBD7, 0xB131C0F0, 0x21796AD4, 0x811BEA82);
  }

  lemma Rounds35To40(block: seq<Byte>)
    requires IsBlock(block) && At(block, 35, 0x21796AD4, 0x2C0EBC11, 0x811BEA82, 0xCEE1174C, 0xC499ED01)
    ensures At(block, 40, 0x32DE1CBA, 0x4C986405, 0xF718E5CF, 0x03D447F6, 0xF72EEC32)
  {
    hide At, Is;
    Words3(block);
    SecondRound(block, 35, 0x21796AD4, 0x2C0EBC11, 0x811BEA82, 0xCEE1174C, 0xC499ED01, 0x16263BC6, 0xDCBBB0CB, 0x4B03AF04);
    SecondRound(block, 36, 0xDCBBB0CB, 0x21796AD4, 0x4B03AF04, 0x811BEA82, 0xCEE1174C, 0x4EBED41E, 0x0F511FD8, 0x085E5AB5);
    SecondRound(block, 37, 0x0F511FD8, 0xDCBBB0CB, 0x085E5AB5, 0x4B03AF04, 0x811BEA82, 0x626380A1, 0xDC63973F, 0xF72EEC32);
    SecondRound(block, 38, 0xDC63973F, 0x0F511FD8, 0xF72EEC32, 0x085E5AB5, 0x4B03AF04, 0x16263806, 0x4C986405, 0x03D447F6);
    SecondRound(block, 39, 0x4C986405, 0xDC63973F, 0x03D447F6, 0xF72EEC32, 0x085E5AB5, 0x000018C0, 0x32DE1CBA, 0xF718E5CF);
  }

  lemma Rounds40To45(block: seq<Byte>)
    requires IsBlock(block) && At(block, 40, 0x32DE1CBA, 0x4C986405, 0xF718E5CF, 0x03D447F6, 0xF72EEC32)
    ensures At(block, 45, 0x40F28E09, 0xEE1B1AAF, 0x5FC64F71, 0x25C28357, 0xFF21F7B7)
  {
    hide At, Is;
    Words4(block);
    MajorityRound(block, 40, 0x32DE1CBA, 0x4C986405, 0xF718E5CF, 0x03D447F6, 0xF72EEC32, 0xD2E138C4, 0xFC87DEDF, 0x53261901);
    MajorityRound(block, 41, 0xFC87DEDF, 0x32DE1CBA, 0x53261901, 0xF718E5CF, 0x03D447F6, 0x00000F00, 0x970A0D5C, 0x8CB7872E);
    MajorityRound(block, 42, 0x970A0D5C, 0xFC87DEDF, 0x8CB7872E, 0x53261901, 0xF718E5CF, 0x3AFB5079, 0x7F193DC5, 0xFF21F7B7);
    MajorityRound(block, 43, 0x7F193DC5, 0x970A0D5C, 0xFF21F7B7, 0x8CB7872E, 0x53261901, 0x898E04E5, 0xEE1B1AAF, 0x25C28357);
    MajorityRound(block, 44, 0xEE1B1AAF, 0x7F193DC5, 0x25C28357, 0xFF21F7B7, 0x8CB7872E, 0xE2BA3C2B, 0x40F28E09, 0x5FC64F71);
  }

  lemma Rounds45To50(block: seq<Byte>)
    requires IsBlock(block) && At(block, 45, 0x40F28E09, 0xEE1B1AAF, 0x5FC64F71, 0x25C28357, 0xFF21F7B7)
    ensures At(block, 50, 0x120731C5, 0xBAF39337, 0xAFAB40B2, 0x2806E11B, 0x8714787C)
  {
    hide At, Is;
    Words4(block);
    Words5(block);
    MajorityRound(block, 45, 0x40F28E09, 0xEE1B1AAF, 0x5FC64F71, 0x25C28357, 0xFF21F7B7, 0x000060C0, 0x1C51E1F2, 0xFB86C6AB);
    MajorityRound(block, 46, 0x1C51E1F2, 0x40F28E09, 0xFB86C6AB, 0x5FC64F71, 0x25C28357, 0x053A37CD, 0xA01B846C, 0x503CA382);
    MajorityRound(block, 47, 0xA01B846C, 0x1C51E1F2, 0x503CA382, 0xFB86C6AB, 0x5FC64F71, 0x74458547, 0xBEAD02CA, 0x8714787C);
    MajorityRound(block, 48, 0xBEAD02CA, 0xA01B846C, 0x8714787C, 0x503CA382, 0xFB86C6AB, 0xDA9415ED, 0xBAF39337, 0x2806E11B);
    MajorityRound(block, 49, 0xBAF39337, 0xBEAD02CA, 0x2806E11B, 0x8714787C, 0x503CA382, 0x26380A16, 0x120731C5, 0xAFAB40B2);
  }

  lemma Rounds50To55(block: seq<Byte>)
    requires IsBlock(block) && At(block, 50, 0x120731C5, 0xBAF39337, 0xAFAB40B2, 0x2806E11B, 0x8714787C)
    ensures At(block, 55, 0x7B71F76D, 0x27E9F1D8, 0x792410DB, 0x8E11EB59, 0x99076CB3)
  {
    hide At, Is;
    Words5(block);
    MajorityRound(block, 50, 0x120731C5, 0xBAF39337, 0xAFAB40B2, 0x2806E11B, 0x8714787C, 0x626383A1, 0x641DB2CE, 0xEEBCE4CD);
    MajorityRound(block, 51, 0x641DB2CE, 0x120731C5, 0xEEBCE4CD, 0xAFAB40B2, 0x2806E11B, 0x4EBF54DE, 0x3847AD66, 0x4481CC71);
    MajorityRound(block, 52, 0x3847AD66, 0x641DB2CE, 0x4481CC71, 0xEEBCE4CD, 0xAFAB40B2, 0x3835B44B, 0xE490436D, 0x99076CB3);
    MajorityRound(block, 53, 0xE490436D, 0x3847AD66, 0x99076CB3, 0x4481CC71, 0xEEBCE4CD, 0x0000F600, 0x27E9F1D8, 0x8E11EB59);
    MajorityRound(block, 54, 0x27E9F1D8, 0xE490436D, 0x8E11EB59, 0x99076CB3, 0x4481CC71, 0x1E84C7A3, 0x7B71F76D, 0x792410DB);
  }

  lemma Rounds55To60(block: seq<Byte>)
    requires IsBlock(block) && At(block, 55, 0x7B71F76D, 0x27E9F1D8, 0x792410DB, 0x8E11EB59, 0x99076CB3)
    ensures At(block, 60, 0x3F52DE5A, 0x09D785FD, 0x3498BFD4, 0xF211824F, 0xD79915AB)
  {
    hide At, Is;
    Words5(block);
    Words6(block);
    MajorityRound(block, 55, 0x7B71F76D, 0x27E9F1D8, 0x792410DB, 0x8E11EB59, 0x99076CB3, 0x98E04D98, 0x5E6456AF, 0x09FA7C76);
    MajorityRound(block, 56, 0x5E6456AF, 0x7B71F76D, 0x09FA7C76, 0x792410DB, 0x8E11EB59, 0x651D16A0, 0xC846093F, 0x5EDC7DDB);
    MajorityRound(block, 57, 0xC846093F, 0x5E6456AF, 0x5EDC7DDB, 0x09FA7C76, 0x792410DB, 0x62658CA1, 0xD262FF50, 0xD79915AB);
    MajorityRound(block, 58, 0xD262FF50, 0xC846093F, 0xD79915AB, 0x5EDC7DDB, 0x09FA7C76, 0x458544D6, 0x09D785FD, 0xF211824F);
    MajorityRound(block, 59, 0x09D785FD, 0xD262FF50, 0xF211824F, 0xD79915AB, 0x5EDC7DDB, 0x44584CB7, 0x3F52DE5A, 0x3498BFD4);
  }

  lemma Rounds60To65(block: seq<Byte>)
    requires IsBlock(block) && At(block, 60, 0x3F52DE5A, 0x09D785FD, 0x3498BFD4, 0xF211824F, 0xD79915AB)
    ensures At(block, 65, 0x19DFA7AC, 0x6B61C9E1, 0xED9B0082, 0x9523272C, 0xF5D5B051)
  {
    hide At, Is;
    Words6(block);
    Words7(block);
    LastRound(block, 60, 0x3F52DE5A, 0x09D785FD, 0x3498BFD4, 0xF211824F, 0xD79915AB, 0x7BA06619, 0xD756C147, 0x4275E17F);
    LastRound(block, 61, 0xD756C147, 0x3F52DE5A, 0x4275E17F, 0x3498BFD4, 0xF211824F, 0x6380AEA2, 0x548C9CB2, 0x8FD4B796);
    LastRound(block, 62, 0x548C9CB2, 0xD756C147, 0x8FD4B796, 0x4275E17F, 0x3498BFD4, 0x0AE55269, 0xB66C020B, 0xF5D5B051);
    LastRound(block, 63, 0xB66C020B, 0x548C9CB2, 0xF5D5B051, 0x8FD4B796, 0x4275E17F, 0x627B49A1, 0x6B61C9E1, 0x9523272C);
    LastRound(block, 64, 0x6B61C9E1, 0xB66C020B, 0x9523272C, 0xF5D5B051, 0x8FD4B796, 0x7CD45C9D, 0x19DFA7AC, 0xED9B0082);
  }

  lemma Rounds65To70(block: seq<Byte>)
    requires IsBlock(block) && At(block, 65, 0x19DFA7AC, 0x6B61C9E1, 0xED9B0082, 0x9523272C, 0xF5D5B051)
    ensures At(block, 70, 0x3F2588C2, 0x497093C0, 0xDE37534A, 0x030F7CAD, 0x4405957E)
  {
    hide At, Is;
    Words7(block);
    LastRound(block, 65, 0x19DFA7AC, 0x6B61C9E1, 0xED9B0082, 0x9523272C, 0xF5D5B051, 0x000F0000, 0x101655F9, 0x5AD87278);
    LastRound(block, 66, 0x101655F9, 0x19DFA7AC, 0x5AD87278, 0xED9B0082, 0x9523272C, 0xFB50753A, 0x0C3DF2B4, 0x0677E9EB);
    LastRound(block, 67, 0x0C3DF2B4, 0x101655F9, 0x0677E9EB, 0x5AD87278, 0xED9B0082, 0xEC6765E8, 0x78DD4D2B, 0x4405957E);
    LastRound(block, 68, 0x78DD4D2B, 0x0C3DF2B4, 0x4405957E, 0x0677E9EB, 0x5AD87278, 0xBA3C2BE2, 0x497093C0, 0x030F7CAD);
    LastRound(block, 69, 0x497093C0, 0x78DD4D2B, 0x030F7CAD, 0x4405957E, 0x0677E9EB, 0x0060C000, 0x3F2588C2, 0xDE37534A);
  }

  lemma Rounds70To75(block: seq<Byte>)
    requires IsBlock(block) && At(block, 70, 0x3F2588C2, 0x497093C0, 0xDE37534A, 0x030F7CAD, 0x4405957E)
    ensures At(block, 75, 0x5EE76897, 0x11793F6F, 0x3B6D0B79, 0xCE616779, 0xF0667E31)
  {
    hide At, Is;
    Words7(block);
    Words8(block);
    LastRound(block, 70, 0x3F2588C2, 0x497093C0, 0xDE37534A, 0x030F7CAD, 0x4405957E, 0x3A37CD05, 0xC199F8C7, 0x125C24F0);
    LastRound(block, 71, 0xC199F8C7, 0x3F2588C2, 0x125C24F0, 0xDE37534A, 0x030F7CAD, 0x458546F4, 0x39859DE7, 0x8FC96230);
    LastRound(block, 72, 0x39859DE7, 0xC199F8C7, 0x8FC96230, 0x125C24F0, 0xDE37534A, 0xB8599DD6, 0xEDB42DE4, 0xF0667E31);
    LastRound(block, 73, 0xEDB42DE4, 0x39859DE7, 0xF0667E31, 0x8FC96230, 0x125C24F0, 0x380A1A26, 0x11793F6F, 0xCE616779);
    LastRound(block, 74, 0x11793F6F, 0xEDB42DE4, 0xCE616779, 0xF0667E31, 0x8FC96230, 0x01E02203, 0x5EE76897, 0x3B6D0B79);
  }

  lemma Rounds75To80(block: seq<Byte>)
    requires IsBlock(block) && At(block, 75, 0x5EE76897, 0x11793F6F, 0x3B6D0B79, 0xCE616779, 0xF0667E31)
    ensures At(block, 80, 0x42541B35, 0x5738D5E1, 0x21834873, 0x681E6DF6, 0xD8FDF6AD)
  {
    hide At, Is;
    Words8(block);
    LastRound(block, 75, 0x5EE76897, 0x11793F6F, 0x3B6D0B79, 0xCE616779, 0xF0667E31, 0xE7CC3456, 0x63F7DAB7, 0xC45E4FDB);
    LastRound(block, 76, 0x63F7DAB7, 0x5EE76897, 0xC45E4FDB, 0x3B6D0B79, 0xCE616779, 0xE6E60B69, 0xA079B7D9, 0xD7B9DA25);
    LastRound(block, 77, 0xA079B7D9, 0x63F7DAB7, 0xD7B9DA25, 0xC45E4FDB, 0x3B6D0B79, 0x00F60A00, 0x860D21CC, 0xD8FDF6AD);
    LastRound(block, 78, 0x860D21CC, 0xA079B7D9, 0xD8FDF6AD, 0xD7B9DA25, 0xC45E4FDB, 0x5795EF4F, 0x5738D5E1, 0x681E6DF6);
    LastRound(block, 79, 0x5738D5E1, 0x860D21CC, 0x681E6DF6, 0xD8FDF6AD, 0xD7B9DA25, 0x822E0879, 0x42541B35, 0x21834873);
  }

  lemma AllRounds(block: seq<Byte>)
    requires IsBlock(block)
    ensures At(block, 80, 0x42541B35, 0x5738D5E1, 0x21834873, 0x681E6DF6, 0xD8FDF6AD)
  {
    assert At(block, 0, 0x67452301, 0xEFCDAB89, 0x98BADCFE, 0x10325476, 0xC3D2E1F0);
    hide At;
    Rounds0To5(block);
    Rounds5To10(block);
    Rounds10To15(block);
    Rounds15To20(block);
    Rounds20To25(block);
    Rounds25To30(block);
    Rounds30To35(block);
    Rounds35To40(block);
    Rounds40To45(block);
    Rounds45To50(block);
    Rounds50To55(block);
    Rounds55To60(block);
    Rounds60To65(block);
    Rounds65To70(block);
    Rounds70To75(block);
    Rounds75To80(block);
  }

  // ------------------------------------------------------------- the digest

  lemma Sums()
    ensures Plus(0x67452301, 0x42541B35) == 0xA9993E36
    ensures Plus(0xEFCDAB89, 0x5738D5E1) == 0x4706816A
    ensures Plus(0x98BADCFE, 0x21834873) == 0xBA3E2571
    ensures Plus(0x10325476, 0x681E6DF6) == 0x7850C26C
    ensures Plus(0xC3D2E1F0, 0xD8FDF6AD) == 0x9CD0D89D
  {
  }

  lemma BlockDigest(block: seq<Byte>)
    requires IsBlock(block)
    ensures HashBlocks(Initial, block) == State(0xA9993E36, 0x4706816A, 0xBA3E2571, 0x7850C26C, 0x9CD0D89D)
  {
    AllRounds(block);
    Sums();
    hide Plus, Rounds, HashBlocks;
    HashOne(Initial, block);
  }

  lemma AbcBlock(m: seq<Byte>)
    requires m == [0x61, 0x62, 0x63]
    ensures Admissible(m) && IsBlock(Pad(m))
  {
    var len := BigEndian64(24);
    ShortLength();
    hide BigEndian64;
    assert ZeroCount(3) == 52;
    var p := Pad(m);
    assert p == m + [0x80] + Zeros(52) + len;
    forall i | 4 <= i < 63 ensures p[i] == 0 {
      if i >= 56 {
        assert p[i] == len[i - 56];
      }
    }
    assert p[63] == len[7];
  }

  lemma ShortLength()
    ensures BigEndian64(24)[7] == 24 && forall i :: 0 <= i < 7 ==> BigEndian64(24)[i] == 0
  {
    assert OctetValue(24, 0x100_0000_0000_0000) == 0 && OctetValue(24, 0x1_0000_0000_0000) == 0;
    assert OctetValue(24, 0x100_0000_0000) == 0 && OctetValue(24, 0x1_0000_0000) == 0;
    assert OctetValue(24, 0x100_0000) == 0 && OctetValue(24, 0x1_0000) == 0;
    assert OctetValue(24, 0x100) == 0 && OctetValue(24, 1) == 24;
    hide OctetValue;
    assert Octet(24, 0x100_0000_0000_0000) == 0 && Octet(24, 0x1_0000_0000_0000) == 0;
    assert Octet(24, 0x100_0000_0000) == 0 && Octet(24, 0x1_0000_0000) == 0;
    assert Octet(24, 0x100_0000) == 0 && Octet(24, 0x1_0000) == 0;
    assert Octet(24, 0x100) == 0 && Octet(24, 1) == 24;
    hide Octet;
  }

  // The digest of "abc".
  lemma AbcDigest(m: seq<Byte>)
    requires m == [0x61, 0x62, 0x63]
    ensures Admissible(m)
    ensures Digest(m) ==
      [0xA9, 0x99, 0x3E, 0x36, 0x47, 0x06, 0x81, 0x6A,
       0xBA, 0x3E, 0x25, 0x71, 0x78, 0x50, 0xC2, 0x6C,
       0x9C, 0xD0, 0xD8, 0x9D]
  {
    AbcBlock(m);
    BlockDigest(Pad(m));
    hide HashBlocks, Pad, IsBlock, StateBytes;
    PadLength(m);
    StateOfAbc();
  }

  lemma StateOfAbc()
    ensures StateBytes(State(0xA9993E36, 0x4706816A, 0xBA3E2571, 0x7850C26C, 0x9CD0D89D)) ==
      [0xA9, 0x99, 0x3E, 0x36, 0x47, 0x06, 0x81, 0x6A,
       0xBA, 0x3E, 0x25, 0x71, 0x78, 0x50, 0xC2, 0x6C,
       0x9C, 0xD0, 0xD8, 0x9D]
  {
    DigestBytes();
    hide WordBytes, ByteOf;
  }

  lemma DigestBytes()
    ensures WordBytes(0xA9993E36) == [0xA9, 0x99, 0x3E, 0x36]
    ensures WordBytes(0x4706816A) == [0x47, 0x06, 0x81, 0x6A]
    ensures WordBytes(0xBA3E2571) == [0xBA, 0x3E, 0x25, 0x71]
    ensures WordBytes(0x7850C26C) == [0x78, 0x50, 0xC2, 0x6C]
    ensures WordBytes(0x9CD0D89D) == [0x9C, 0xD0, 0xD8, 0x9D]
  {
  }
}
