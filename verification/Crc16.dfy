// pad_crc16 of src-fdkaac/src/dab_pad.c (the CRC of Annex E of ETSI EN 300 401).
module Crc16 {
  import opened Polynomials

  type Byte = bv8
  type Word = bv16

  // The bit operations of the program on its 16-bit register.
  function Top(c: Word): bool {
    c & 0x8000 != 0
  }

  function Up(c: Word): Word {
    c << 1
  }

  function Add(c: Word, d: Word): Word {
    c ^ d
  }

  function High(d: Byte): Word {
    (d as Word) << 8
  }

  // One turn of the inner loop.
  function Shift(c: Word): Word {
    if Top(c) then Add(Up(c), 0x1021) else Up(c)
  }

  function Shifts(c: Word, n: nat): Word
    decreases n
  {
    if n == 0 then c else Shifts(Shift(c), n - 1)
  }

  function FeedByte(c: Word, d: Byte): Word {
    Shifts(Add(c, High(d)), 8)
  }

  // The register of the program after some bytes.
  function Feed(data: seq<Byte>): Word {
    if |data| == 0 then 0xFFFF else FeedByte(Feed(data[..|data| - 1]), data[|data| - 1])
  }

  function Crc(data: seq<Byte>): Word {
    !Feed(data)
  }

  method PadCrc16(data: seq<Byte>) returns (crc: Word)
    ensures crc == Crc(data)
  {
    hide Top, Up, Add, High;
    crc := 0xFFFF;
    var i := 0;
    while i < |data|
      invariant 0 <= i <= |data|
      invariant crc == Feed(data[..i])
    {
      ghost var before := crc;
      crc := Add(crc, High(data[i]));
      var b := 0;
      while b < 8
        invariant 0 <= b <= 8
        invariant Shifts(crc, 8 - b) == FeedByte(before, data[i])
      {
        crc := if Top(crc) then Add(Up(crc), 0x1021) else Up(crc);
        b := b + 1;
      }
      assert data[..i + 1][..i] == data[..i];
      i := i + 1;
    }
    assert data[..i] == data;
    crc := !crc;
  }

  // ------------------------------------------------------------- bit by bit

  function TopBit(x: bool): Word {
    if x then 0x8000 else 0
  }

  function FeedBit(c: Word, x: bool): Word {
    Shift(Add(c, TopBit(x)))
  }

  function FeedBits(c: Word, bits: Bits): Word
    decreases |bits|
  {
    if |bits| == 0 then c else FeedBits(FeedBit(c, bits[0]), bits[1..])
  }

  // The n highest bits of t, the highest first.
  function TopBits(t: Word, n: nat): (b: Bits)
    ensures |b| == n
    decreases n
  {
    if n == 0 then [] else [Top(t)] + TopBits(Up(t), n - 1)
  }

  function ByteBits(d: Byte): (b: Bits)
    ensures |b| == 8
  {
    TopBits(High(d), 8)
  }

  function DataBits(data: seq<Byte>): (b: Bits)
    ensures |b| == 8 * |data|
  {
    if |data| == 0 then [] else DataBits(data[..|data| - 1]) + ByteBits(data[|data| - 1])
  }

  function Ups(t: Word, n: nat): Word
    decreases n
  {
    if n == 0 then t else Ups(Up(t), n - 1)
  }

  lemma TopIsOneBit(c: Word)
    ensures c & 0x8000 == 0 || c & 0x8000 == 0x8000
  {
  }

  // Adding t to the register at once is feeding its bits one after the other.
  lemma ShiftAbsorbs(c: Word, t: Word)
    ensures Shift(Add(c, t)) == Add(FeedBit(c, Top(t)), Up(t))
  {
    TopIsOneBit(c);
    TopIsOneBit(t);
    if c & 0x8000 == 0 {
      if t & 0x8000 == 0 {} else {}
    } else {
      if t & 0x8000 == 0 {} else {}
    }
  }

  lemma {:induction false} Absorbs(c: Word, t: Word, n: nat)
    ensures Shifts(Add(c, t), n) == Add(FeedBits(c, TopBits(t, n)), Ups(t, n))
    decreases n
  {
    hide Top, Up, Add, Shift, FeedBit;
    if n > 0 {
      var x := Top(t);
      ShiftAbsorbs(c, t);
      Absorbs(FeedBit(c, x), Up(t), n - 1);
      assert TopBits(t, n)[1..] == TopBits(Up(t), n - 1);
    }
  }

  lemma ByteLeaves(d: Byte)
    ensures Ups(High(d), 8) == 0
  {
    var t := High(d);
    hide High, Top;
    assert Ups(t, 8) == Ups(Up(Up(t)), 6);
    assert Ups(t, 8) == Ups(Up(Up(Up(Up(t)))), 4);
    assert Ups(t, 8) == Ups(Up(Up(Up(Up(Up(Up(t)))))), 2);
    assert Ups(t, 8) == Up(Up(Up(Up(Up(Up(Up(Up(t))))))));
    EightUps(d);
  }

  lemma EightUps(d: Byte)
    ensures Up(Up(Up(Up(Up(Up(Up(Up(High(d))))))))) == 0
  {
  }

  lemma AddZero(c: Word)
    ensures Add(c, 0) == c
  {
  }

  lemma FeedByteBits(c: Word, d: Byte)
    ensures FeedByte(c, d) == FeedBits(c, ByteBits(d))
  {
    hide Top, Up, Add, High, Shift, Ups, Shifts;
    Absorbs(c, High(d), 8);
    ByteLeaves(d);
    AddZero(FeedBits(c, ByteBits(d)));
  }

  // --------------------------------------------------- the register as bits

  // The weight of bit i, counted from the top.
  function Mask(i: nat): Word
    requires i < 16
  {
    if i == 0 then 0x8000 else if i == 1 then 0x4000 else if i == 2 then 0x2000 else if i == 3 then 0x1000
    else if i == 4 then 0x800 else if i == 5 then 0x400 else if i == 6 then 0x200 else if i == 7 then 0x100
    else if i == 8 then 0x80 else if i == 9 then 0x40 else if i == 10 then 0x20 else if i == 11 then 0x10
    else if i == 12 then 0x8 else if i == 13 then 0x4 else if i == 14 then 0x2 else 0x1
  }

  function Bit(c: Word, m: Word): bool {
    c & m != 0
  }

  function RegisterBits(c: Word): (b: Bits)
    ensures |b| == 16
  {
    seq(16, i requires 0 <= i < 16 => Bit(c, Mask(i)))
  }

  lemma OneBit(c: Word, m: Word)
    requires m & (m - 1) == 0
    ensures c & m == 0 || c & m == m
  {
  }

  lemma BitOfAdd(a: Word, b: Word, m: Word)
    requires m != 0 && m & (m - 1) == 0
    ensures Bit(Add(a, b), m) == (Bit(a, m) != Bit(b, m))
  {
    OneBit(a, m);
    OneBit(b, m);
    Distributes(a, b, m);
    XorCases(m);
  }

  lemma Distributes(a: Word, b: Word, m: Word)
    ensures (a ^ b) & m == (a & m) ^ (b & m)
  {
  }

  lemma XorCases(m: Word)
    ensures m ^ m == 0 && (0 as Word) ^ m == m && m ^ 0 == m && (0 as Word) ^ 0 == 0
  {
  }

  lemma Masks(i: nat)
    requires i < 16
    ensures Mask(i) != 0 && Mask(i) & (Mask(i) - 1) == 0
    ensures i < 15 ==> Mask(i) == Up(Mask(i + 1)) && !Top(Mask(i + 1))
  {
  }

  lemma BitOfUp(a: Word, m: Word)
    requires !Top(m)
    ensures Bit(Up(a), Up(m)) == Bit(a, m)
    ensures !Bit(Up(a), 1)
  {
  }

  lemma BitsOfAdd(a: Word, b: Word)
    ensures RegisterBits(Add(a, b)) == Xor(RegisterBits(a), RegisterBits(b))
  {
    hide Mask, Bit, Add;
    forall i | 0 <= i < 16
      ensures Bit(Add(a, b), Mask(i)) == (Bit(a, Mask(i)) != Bit(b, Mask(i)))
    {
      Masks(i);
      BitOfAdd(a, b, Mask(i));
    }
  }

  lemma BitsOfUp(a: Word)
    ensures RegisterBits(Up(a)) == RegisterBits(a)[1..] + [false]
  {
    assert Mask(15) == 1;
    hide Mask, Bit, Up, Top;
    forall i | 0 <= i < 16
      ensures RegisterBits(Up(a))[i] == (RegisterBits(a)[1..] + [false])[i]
    {
      Masks(i);
      if i < 15 {
        BitOfUp(a, Mask(i + 1));
      } else {
        BitOfUp(a, 0);
      }
    }
  }

  lemma BitsOfGenerator()
    ensures RegisterBits(0x1021) == Low()
  {
  }

  lemma FlipTop(c: Word)
    ensures Up(Add(c, 0x8000)) == Up(c) && Top(Add(c, 0x8000)) == !Top(c)
  {
  }

  lemma UpOfAddTop(c: Word, x: bool)
    ensures Up(Add(c, TopBit(x))) == Up(c)
    ensures Top(Add(c, TopBit(x))) == (Top(c) != x)
  {
    hide Up, Add, Top;
    if x {
      FlipTop(c);
    } else {
      AddZero(c);
    }
  }

  // The register of the program is the remainder register.
  lemma FeedBitIsStep(c: Word, x: bool)
    ensures RegisterBits(FeedBit(c, x)) == Step(RegisterBits(c), x)
  {
    assert RegisterBits(c)[0] == Top(c);
    hide Top, Up, Add, Mask, Bit, RegisterBits, TopBit;
    UpOfAddTop(c, x);
    BitsOfUp(c);
    BitsOfAdd(Up(c), 0x1021);
    BitsOfGenerator();
  }

  lemma {:induction false} FeedBitsIsRegister(c: Word, m: Bits, bits: Bits)
    requires RegisterBits(c) == Register(m)
    ensures RegisterBits(FeedBits(c, bits)) == Register(m + bits)
    decreases |bits|
  {
    hide Step, RegisterBits, FeedBit;
    if |bits| == 0 {
      assert m + bits == m;
    } else {
      FeedBitIsStep(c, bits[0]);
      RegisterStep(m, bits[0]);
      FeedBitsIsRegister(FeedBit(c, bits[0]), m + [bits[0]], bits[1..]);
      assert m + bits == (m + [bits[0]]) + bits[1..];
    }
  }

  lemma BitsOfOnes()
    ensures RegisterBits(0xFFFF) == Ones(16)
  {
  }

  lemma {:induction false} FeedIsRegister(data: seq<Byte>)
    ensures RegisterBits(Feed(data)) == Register(DataBits(data))
  {
    if |data| == 0 {
      BitsOfOnes();
    } else {
      var k := |data| - 1;
      FeedIsRegister(data[..k]);
      hide RegisterBits, Register, ByteBits, FeedByte;
      FeedByteBits(Feed(data[..k]), data[k]);
      FeedBitsIsRegister(Feed(data[..k]), DataBits(data[..k]), ByteBits(data[k]));
    }
  }

  // The CRC, uncomplemented, is the remainder of the data bits, with the
  // first 16 bits inverted and 16 zeros behind, modulo the generator.
  lemma CrcIsRemainder(data: seq<Byte>)
    ensures IsRemainder(Dividend(DataBits(data)), RegisterBits(!Crc(data)))
  {
    FeedIsRegister(data);
    RegisterIsRemainder(DataBits(data));
    assert !Crc(data) == Feed(data);
  }

  // ------------------------------------------------------------ consequences

  // Data whose bits differ only within 16 consecutive positions have
  // different CRCs.
  lemma CrcDetectsBursts(data: seq<Byte>, other: seq<Byte>, u: Bits, a: Bits, b: Bits, v: Bits)
    requires DataBits(data) == u + a + v && DataBits(other) == u + b + v
    requires |a| == |b| <= 16 && a != b
    ensures Crc(data) != Crc(other)
  {
    FeedIsRegister(data);
    FeedIsRegister(other);
    BurstDetected(u, a, b, v);
    NotInjective(Feed(data), Feed(other));
  }

  lemma NotInjective(a: Word, b: Word)
    ensures !a == !b ==> a == b
  {
  }

  // The CRC as the program appends it, high byte first.
  function CrcBytes(c: Word): (b: seq<Byte>)
    ensures |b| == 2
  {
    [((c >> 8) & 0xFF) as Byte, (c & 0xFF) as Byte]
  }

  // Data followed by their own CRC always give the same value.
  lemma Residue(data: seq<Byte>)
    ensures Crc(data + CrcBytes(Crc(data))) == 0xE2F0
  {
    var c := CrcBytes(Crc(data));
    var x, y := data + [c[0]], data + c;
    assert x[..|data|] == data && y[..|x|] == x && y[|x|] == c[1] && x[|data|] == c[0];
    hide FeedByte, CrcBytes;
    assert Feed(y) == FeedByte(FeedByte(Feed(data), c[0]), c[1]);
    ResidueOfRegister(Feed(data));
  }

  // No bit of t reaches the top within n shifts.
  predicate Quiet(t: Word, n: nat)
    decreases n
  {
    n == 0 || (!Top(t) && Quiet(Up(t), n - 1))
  }

  // Such bits are only moved up.
  lemma {:induction false} QuietMoves(c: Word, t: Word, n: nat)
    requires Quiet(t, n)
    ensures Shifts(Add(c, t), n) == Add(Shifts(c, n), Ups(t, n))
    decreases n
  {
    hide Top, Up, Add, Shift;
    if n > 0 {
      ShiftAbsorbs(c, t);
      AddZero(c);
      QuietMoves(Shift(c), Up(t), n - 1);
    }
  }

  function LowByte(r: Word): Word {
    r & 0xFF
  }

  lemma LowByteQuiet(r: Word)
    ensures Quiet(LowByte(r), 8)
  {
    var t := LowByte(r);
    var u := Up(Up(Up(Up(t))));
    LowByteTops(r);
    hide Top, Up, LowByte;
    assert Quiet(u, 4) by {
      assert Quiet(Up(Up(u)), 2);
    }
    assert Quiet(Up(Up(t)), 6);
  }

  lemma LowByteTops(r: Word)
    ensures var t := LowByte(r);
      !Top(t) && !Top(Up(t)) && !Top(Up(Up(t))) && !Top(Up(Up(Up(t)))) && !Top(Up(Up(Up(Up(t))))) &&
      !Top(Up(Up(Up(Up(Up(t)))))) && !Top(Up(Up(Up(Up(Up(Up(t))))))) && !Top(Up(Up(Up(Up(Up(Up(Up(t))))))))
  {
  }

  lemma UpsOfLowByte(r: Word)
    ensures Ups(LowByte(r), 8) == r << 8
  {
    var t := LowByte(r);
    EightUpsOfLowByte(r);
    hide Up, LowByte;
    assert Ups(t, 8) == Ups(Up(Up(t)), 6);
    assert Ups(t, 8) == Ups(Up(Up(Up(Up(t)))), 4);
    assert Ups(t, 8) == Ups(Up(Up(Up(Up(Up(Up(t)))))), 2);
  }

  lemma EightUpsOfLowByte(r: Word)
    ensures Up(Up(Up(Up(Up(Up(Up(Up(LowByte(r))))))))) == r << 8
  {
  }

  // Adding the complement of the high byte, and then of the low byte.
  lemma AddHighByte(r: Word)
    ensures Add(r, High(CrcBytes(!r)[0])) == Add(0xFF00, LowByte(r))
  {
  }

  lemma AddLowByte(r: Word)
    ensures Add(Add(0x1EF0, r << 8), High(CrcBytes(!r)[1])) == 0xE1F0
  {
  }

  lemma ShiftsOfTopByte()
    ensures Shifts(0xFF00, 8) == 0x1EF0
  {
    assert Shift(0xFF00) == 0xEE21 && Shift(0xEE21) == 0xCC63;
    assert Shift(0xCC63) == 0x88E7 && Shift(0x88E7) == 0x1EF;
    assert Shift(0x1EF) == 0x3DE && Shift(0x3DE) == 0x7BC;
    assert Shift(0x7BC) == 0xF78 && Shift(0xF78) == 0x1EF0;
    hide Shift;
    assert Shifts(0xFF00, 8) == Shifts(0xCC63, 6);
    assert Shifts(0xCC63, 6) == Shifts(0x1EF, 4);
    assert Shifts(0x1EF, 4) == Shifts(0x7BC, 2);
  }

  lemma ShiftsOfRest()
    ensures Shifts(0xE1F0, 8) == 0x1D0F
  {
    assert Shift(0xE1F0) == 0xD3C1 && Shift(0xD3C1) == 0xB7A3;
    assert Shift(0xB7A3) == 0x7F67 && Shift(0x7F67) == 0xFECE;
    assert Shift(0xFECE) == 0xEDBD && Shift(0xEDBD) == 0xCB5B;
    assert Shift(0xCB5B) == 0x8697 && Shift(0x8697) == 0x1D0F;
    hide Shift;
    assert Shifts(0xE1F0, 8) == Shifts(0xB7A3, 6);
    assert Shifts(0xB7A3, 6) == Shifts(0xFECE, 4);
    assert Shifts(0xFECE, 4) == Shifts(0xCB5B, 2);
  }

  lemma ResidueOfRegister(r: Word)
    ensures var c := CrcBytes(!r); FeedByte(FeedByte(r, c[0]), c[1]) == 0x1D0F
  {
    AddHighByte(r);
    AddLowByte(r);
    LowByteQuiet(r);
    UpsOfLowByte(r);
    ShiftsOfTopByte();
    ShiftsOfRest();
    hide Shifts, Add, High, CrcBytes, LowByte, Quiet, Ups;
    QuietMoves(0xFF00, LowByte(r), 8);
  }

  // ------------------------------------------------------- the check value

  // Eight turns of the inner loop, one by one.
  lemma ByteSteps(r: Word, d: Byte)
    ensures FeedByte(r, d) == Shift(Shift(Shift(Shift(Shift(Shift(Shift(Shift(Add(r, High(d))))))))))
  {
    hide Shift, Add, High;
    var c := Add(r, High(d));
    EightShifts(c);
  }

  lemma EightShifts(c: Word)
    ensures Shifts(c, 8) == Shift(Shift(Shift(Shift(Shift(Shift(Shift(Shift(c))))))))
  {
    hide Shift;
    assert Shifts(c, 8) == Shifts(Shift(c), 7) == Shifts(Shift(Shift(c)), 6);
    var e := Shift(Shift(c));
    assert Shifts(e, 6) == Shifts(Shift(e), 5) == Shifts(Shift(Shift(e)), 4);
    var f := Shift(Shift(e));
    assert Shifts(f, 4) == Shifts(Shift(f), 3) == Shifts(Shift(Shift(f)), 2);
    var g := Shift(Shift(f));
    assert Shifts(g, 2) == Shifts(Shift(g), 1) == Shifts(Shift(Shift(g)), 0);
  }

  predicate EightLead(r: Word, d: Byte, q: Word) {
    q == Shift(Shift(Shift(Shift(Shift(Shift(Shift(Shift(Add(r, High(d))))))))))
  }

  lemma FeedMore(data: seq<Byte>, k: nat, r: Word, q: Word)
    requires k < |data| && Feed(data[..k]) == r && EightLead(r, data[k], q)
    ensures Feed(data[..k + 1]) == q
  {
    hide Shift, Add, High;
    ByteSteps(r, data[k]);
    assert data[..k + 1][..k] == data[..k];
  }

  // The CRC of the nine digits "123456789".
  lemma CheckValue(digits: seq<Byte>)
    requires digits == [0x31, 0x32, 0x33, 0x34, 0x35, 0x36, 0x37, 0x38, 0x39]
    ensures Crc(digits) == 0xD64E
  {
    hide Feed;
    FirstDigits(digits);
    LastDigits(digits);
    assert digits[..9] == digits;
  }

  lemma FirstDigits(digits: seq<Byte>)
    requires |digits| == 9 && digits[0] == 0x31 && digits[1] == 0x32 && digits[2] == 0x33 && digits[3] == 0x34
    ensures Feed(digits[..4]) == 0x5349
  {
    assert Feed(digits[..0]) == 0xFFFF;
    EightsLead();
    hide Feed, EightLead;
    FeedMore(digits, 0, 0xFFFF, 0xC782);
    FeedMore(digits, 1, 0xC782, 0x3DBA);
    FeedMore(digits, 2, 0x3DBA, 0x5BCE);
    FeedMore(digits, 3, 0x5BCE, 0x5349);
  }

  lemma LastDigits(digits: seq<Byte>)
    requires |digits| == 9 && digits[4] == 0x35 && digits[5] == 0x36 && digits[6] == 0x37 && digits[7] == 0x38 && digits[8] == 0x39
    requires Feed(digits[..4]) == 0x5349
    ensures Feed(digits[..9]) == 0x29B1
  {
    EightsLead();
    hide Feed, EightLead;
    FeedMore(digits, 4, 0x5349, 0x4560);
    FeedMore(digits, 5, 0x4560, 0x2EF4);
    FeedMore(digits, 6, 0x2EF4, 0x7718);
    FeedMore(digits, 7, 0x7718, 0xA12B);
    FeedMore(digits, 8, 0xA12B, 0x29B1);
  }

  lemma EightsLead()
    ensures EightLead(0xFFFF, 0x31, 0xC782)
    ensures EightLead(0xC782, 0x32, 0x3DBA)
    ensures EightLead(0x3DBA, 0x33, 0x5BCE)
    ensures EightLead(0x5BCE, 0x34, 0x5349)
    ensures EightLead(0x5349, 0x35, 0x4560)
    ensures EightLead(0x4560, 0x36, 0x2EF4)
    ensures EightLead(0x2EF4, 0x37, 0x7718)
    ensures EightLead(0x7718, 0x38, 0xA12B)
    ensures EightLead(0xA12B, 0x39, 0x29B1)
  {
  }
}
