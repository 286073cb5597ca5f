// The streaming SHA-1 of src-fdk-aac/sha1.c: a 64-byte buffer, a bit counter
// in two 32-bit halves, and a sticky error flag.
module Sha1 {
  import opened Arithmetic
  import opened Sha1Standard

  const TWO32 := 0x1_0000_0000
  const DIGEST_LENGTH := 20

  class Context {
    const messageDigest: array<Word>
    const messageBlock: array<Byte>
    var lengthLow: int
    var lengthHigh: int
    var messageBlockIndex: int
    var computed: bool
    var corrupted: bool

    // Every byte accepted since the last reset.
    ghost var message: seq<Byte>

    ghost predicate Layout()
      reads this
    {
      messageDigest.Length == 5 && messageBlock.Length == 64
    }

    ghost function Buffers(): State
      requires Layout()
      reads this, messageDigest
    {
      State(messageDigest[0], messageDigest[1], messageDigest[2], messageDigest[3], messageDigest[4])
    }

    // The two halves of the counter hold the length in bits.
    ghost predicate Counting()
      reads this
    {
      Admissible(message) && 0 <= lengthLow < TWO32 && 0 <= lengthHigh < TWO32 &&
      lengthHigh * TWO32 + lengthLow == 8 * |message|
    }

    ghost predicate Feeding()
      requires Layout()
      reads this, messageBlock, messageDigest
    {
      Counting() && messageBlockIndex == |message| - Whole(|message|) &&
      messageBlock[..messageBlockIndex] == message[Whole(|message|)..] &&
      Buffers() == HashBlocks(Initial, message[..Whole(|message|)])
    }

    ghost predicate Finished()
      requires Layout()
      reads this, messageDigest
    {
      Admissible(message) && |Pad(message)| % 64 == 0 &&
      Buffers() == HashBlocks(Initial, Pad(message))
    }

    ghost predicate Valid()
      reads this, messageBlock, messageDigest
    {
      Layout() && (!corrupted && !computed ==> Feeding()) && (!corrupted && computed ==> Finished())
    }

    constructor ()
      ensures Valid() && fresh(messageDigest) && fresh(messageBlock)
      ensures message == [] && !computed && !corrupted
    {
      messageDigest, messageBlock := new Word[5], new Byte[64];
      new;
      Reset();
    }

    method Reset()
      requires Layout()
      modifies this, messageDigest
      ensures Valid() && message == [] && !computed && !corrupted
    {
      lengthLow := 0;
      lengthHigh := 0;
      messageBlockIndex := 0;
      messageDigest[0] := 0x67452301;
      messageDigest[1] := 0xEFCDAB89;
      messageDigest[2] := 0x98BADCFE;
      messageDigest[3] := 0x10325476;
      messageDigest[4] := 0xC3D2E1F0;
      computed := false;
      corrupted := false;
      message := [];
    }

    // Lines 252-263: the word sequence of a block.
    method ExpandBlock() returns (w: array<Word>)
      requires Layout()
      ensures fresh(w) && w.Length == 80
      ensures forall j :: 0 <= j < 80 ==> w[j] == W(messageBlock[..], j)
    {
      hide Rotate, W, WordOf, Xor4;
      ghost var block := messageBlock[..];
      w := new Word[80];
      var t := 0;
      while t < 16
        invariant 0 <= t <= 16
        invariant forall j :: 0 <= j < t ==> w[j] == W(block, j)
        invariant messageBlock[..] == block
      {
        WStep(block, t);
        w[t] := FromBytes(messageBlock[t * 4], messageBlock[t * 4 + 1], messageBlock[t * 4 + 2], messageBlock[t * 4 + 3]);
        t := t + 1;
      }
      while t < 80
        invariant 16 <= t <= 80
        invariant forall j :: 0 <= j < t ==> w[j] == W(block, j)
        invariant messageBlock[..] == block
      {
        WStep(block, t);
        w[t] := Rotate(1, Xor4(w[t - 3], w[t - 8], w[t - 14], w[t - 16]));
        t := t + 1;
      }
    }

    // Lines 317-326.
    method AddToDigest(a: Word, b: Word, c: Word, d: Word, e: Word)
      requires Layout()
      modifies messageDigest
      ensures Buffers() == Add(old(Buffers()), State(a, b, c, d, e))
    {
      hide Plus;
      messageDigest[0] := Plus(messageDigest[0], a);
      messageDigest[1] := Plus(messageDigest[1], b);
      messageDigest[2] := Plus(messageDigest[2], c);
      messageDigest[3] := Plus(messageDigest[3], d);
      messageDigest[4] := Plus(messageDigest[4], e);
    }

    method ProcessMessageBlock()
      requires Layout()
      modifies messageDigest, this`messageBlockIndex
      ensures Buffers() == Compress(old(Buffers()), messageBlock[..])
      ensures messageBlockIndex == 0
    {
      hide Rounds, Add;
      ghost var block := messageBlock[..];
      ghost var h := Buffers();
      var w := ExpandBlock();
      var a, b, c, d, e := messageDigest[0], messageDigest[1], messageDigest[2], messageDigest[3], messageDigest[4];
      RoundsStep(h, block, 0);
      a, b, c, d, e := FirstStages(w[..], block, h, a, b, c, d, e);
      a, b, c, d, e := LastStages(w[..], block, h, a, b, c, d, e);
      AddToDigest(a, b, c, d, e);
      messageBlockIndex := 0;
    }

    // Lines 191-204: count eight more bits.
    method CountByte(x: Byte)
      requires Counting() && !corrupted
      modifies this`lengthLow, this`lengthHigh, this`corrupted, this`message
      ensures message == old(message) + [x]
      ensures corrupted <==> !Admissible(message)
      ensures !corrupted ==> Counting()
    {
      lengthLow := (lengthLow + 8) % TWO32;
      if lengthLow == 0 {
        lengthHigh := (lengthHigh + 1) % TWO32;
        if lengthHigh == 0 {
          corrupted := true;
        }
      }
      message := message + [x];
    }

    // The loop body of SHA1Input.
    method AcceptByte(x: Byte)
      requires Valid() && !computed && !corrupted
      modifies this, messageBlock, messageDigest
      ensures Valid() && !computed && message == old(message) + [x]
      ensures corrupted <==> !Admissible(message)
    {
      hide HashBlocks, Compress, Whole;
      ghost var n, m := |message|, message;
      ghost var blocks := m[..Whole(n)];
      messageBlock[messageBlockIndex] := x;
      messageBlockIndex := messageBlockIndex + 1;
      CountByte(x);
      WholeStep(n);
      OneMore(m, x, Whole(n));
      assert messageBlock[..messageBlockIndex] == m[Whole(n)..] + [x];
      if messageBlockIndex == 64 {
        assert messageBlock[..] == messageBlock[..messageBlockIndex];
        HashNext(Initial, blocks, messageBlock[..]);
        ProcessMessageBlock();
      }
    }

    method Input(messageArray: seq<Byte>)
      requires Valid()
      modifies this, messageBlock, messageDigest
      ensures Valid() && computed == old(computed)
      ensures corrupted <==>
        old(corrupted) || (messageArray != [] && (old(computed) || !Admissible(old(message) + messageArray)))
      ensures !corrupted ==> message == old(message) + messageArray
    {
      if |messageArray| == 0 {
        return;
      }
      if computed || corrupted {
        corrupted := true;
        return;
      }
      var i := 0;
      while i < |messageArray| && !corrupted
        invariant 0 <= i <= |messageArray|
        invariant Valid() && !computed && message == old(message) + messageArray[..i]
        invariant corrupted <==> !Admissible(message)
      {
        AcceptByte(messageArray[i]);
        i := i + 1;
      }
      assert !corrupted ==> messageArray[..i] == messageArray;
    }

    // Fills the buffer with zeros from the index up to n.
    method FillZeros(n: nat)
      requires Layout() && 0 <= messageBlockIndex <= n <= 64
      modifies this`messageBlockIndex, messageBlock
      ensures messageBlockIndex == n
      ensures messageBlock[..n] == old(messageBlock[..messageBlockIndex]) + Zeros(n - old(messageBlockIndex))
    {
      ghost var start := messageBlockIndex;
      while messageBlockIndex < n
        invariant start <= messageBlockIndex <= n
        invariant messageBlock[..messageBlockIndex] == old(messageBlock[..messageBlockIndex]) + Zeros(messageBlockIndex - start)
      {
        messageBlock[messageBlockIndex] := 0;
        messageBlockIndex := messageBlockIndex + 1;
      }
    }

    // Lines 389-396: x >> 24, x >> 16, x >> 8 and x, each masked to a byte.
    method StoreLength()
      requires Layout() && Counting()
      modifies messageBlock
      ensures messageBlock[..] == old(messageBlock[..56]) + BigEndian64(8 * |message|)
    {
      hide Octet;
      LengthBytes(lengthHigh, lengthLow);
      messageBlock[56] := Octet(lengthHigh, 0x100_0000);
      messageBlock[57] := Octet(lengthHigh, 0x1_0000);
      messageBlock[58] := Octet(lengthHigh, 0x100);
      messageBlock[59] := Octet(lengthHigh, 1);
      messageBlock[60] := Octet(lengthLow, 0x100_0000);
      messageBlock[61] := Octet(lengthLow, 0x1_0000);
      messageBlock[62] := Octet(lengthLow, 0x100);
      messageBlock[63] := Octet(lengthLow, 1);
      assert messageBlock[..56] == old(messageBlock[..56]);
    }

    method PadMessage()
      requires Layout() && Feeding()
      modifies this`messageBlockIndex, messageBlock, messageDigest
      ensures Finished()
    {
      hide HashBlocks, Compress, BigEndian64, Whole, Pad, ZeroCount;
      ghost var n := |message|;
      ghost var tail := message[Whole(n)..];
      ghost var block1 := [];
      if messageBlockIndex > 55 {
        messageBlock[messageBlockIndex] := 0x80;
        messageBlockIndex := messageBlockIndex + 1;
        assert messageBlock[..messageBlockIndex] == tail + [0x80];
        FillZeros(64);
        assert messageBlock[..] == messageBlock[..64];
        block1 := messageBlock[..];
        ProcessMessageBlock();
        FillZeros(56);
        assert messageBlock[..56] == Zeros(56);
      } else {
        messageBlock[messageBlockIndex] := 0x80;
        messageBlockIndex := messageBlockIndex + 1;
        assert messageBlock[..messageBlockIndex] == tail + [0x80];
        FillZeros(56);
      }
      StoreLength();
      ghost var last := messageBlock[..];
      if |tail| > 55 {
        PadBlocks(message, block1, last);
        HashPad(message, block1, last);
      } else {
        PadBlocks(message, last, []);
        HashPad(message, last, []);
      }
      ProcessMessageBlock();
    }

    // Lines 143-144.
    method CopyDigest(digest: array<Byte>)
      requires Layout() && digest.Length >= DIGEST_LENGTH && digest != messageBlock
      modifies digest
      ensures digest[..DIGEST_LENGTH] == StateBytes(Buffers())
      ensures digest[DIGEST_LENGTH..] == old(digest[DIGEST_LENGTH..])
    {
      hide StateBytes, ByteOf;
      ghost var s := Buffers();
      var i := 0;
      while i < DIGEST_LENGTH
        invariant 0 <= i <= DIGEST_LENGTH
        invariant forall j :: 0 <= j < i ==> digest[j] == StateBytes(s)[j]
        invariant digest[DIGEST_LENGTH..] == old(digest[DIGEST_LENGTH..])
      {
        ByteOfState(s, i);
        digest[i] := ByteOf(messageDigest[i / 4], i % 4);
        i := i + 1;
      }
    }

    method Result(digest: array<Byte>) returns (ok: bool)
      requires Valid() && digest.Length >= DIGEST_LENGTH && digest != messageBlock
      modifies this, messageBlock, messageDigest, digest
      ensures Valid() && ok == !old(corrupted) && corrupted == old(corrupted) && message == old(message)
      ensures ok ==> computed && Admissible(message) && digest[..DIGEST_LENGTH] == Digest(message)
      ensures digest[DIGEST_LENGTH..] == old(digest[DIGEST_LENGTH..])
      ensures !ok ==> digest[..] == old(digest[..])
    {
      hide HashBlocks, Pad, StateBytes;
      if corrupted {
        return false;
      }
      if !computed {
        PadMessage();
        computed := true;
      }
      CopyDigest(digest);
      return true;
    }
  }

  function Flatten(chunks: seq<seq<Byte>>): seq<Byte> {
    if |chunks| == 0 then [] else Flatten(chunks[..|chunks| - 1]) + chunks[|chunks| - 1]
  }

  // A hash fed piece by piece, as src-fdk-aac/test-encode-decode.c does at
  // lines 92, 346 and 372: however the message is cut, the digest is that
  // of the whole, and asking again gives the same bytes.
  method HashChunks(context: Context, chunks: seq<seq<Byte>>, digest: array<Byte>, again: array<Byte>)
    returns (ok: bool)
    requires context.Layout() && digest.Length == DIGEST_LENGTH == again.Length
    requires digest != again && digest != context.messageBlock && again != context.messageBlock
    modifies context, context.messageBlock, context.messageDigest, digest, again
    ensures ok <==> Admissible(Flatten(chunks))
    ensures ok ==> digest[..] == Digest(Flatten(chunks)) && again[..] == digest[..]
  {
    hide Digest, Pad, HashBlocks;
    context.Reset();
    var i := 0;
    while i < |chunks|
      invariant 0 <= i <= |chunks|
      invariant context.Valid() && !context.computed
      invariant context.corrupted <==> !Admissible(Flatten(chunks[..i]))
      invariant !context.corrupted ==> context.message == Flatten(chunks[..i])
      modifies context, context.messageBlock, context.messageDigest
    {
      assert chunks[..i + 1][..i] == chunks[..i];
      context.Input(chunks[i]);
      i := i + 1;
    }
    assert chunks[..i] == chunks;
    ok := context.Result(digest);
    var ok2 := context.Result(again);
    if ok {
      assert digest[..] == digest[..DIGEST_LENGTH] && again[..] == again[..DIGEST_LENGTH];
    }
  }

  // The index of each byte of the digest.
  lemma ByteOfState(s: State, i: nat)
    requires i < DIGEST_LENGTH
    ensures StateBytes(s)[i] == ByteOf([s.a, s.b, s.c, s.d, s.e][i / 4], i % 4)
  {
    hide ByteOf;
    var q, r := i / 4, i % 4;
    assert i == 4 * q + r;
    if q == 0 {
      assert StateBytes(s)[i] == WordBytes(s.a)[r];
    } else if q == 1 {
      assert StateBytes(s)[i] == WordBytes(s.b)[r];
    } else if q == 2 {
      assert StateBytes(s)[i] == WordBytes(s.c)[r];
    } else if q == 3 {
      assert StateBytes(s)[i] == WordBytes(s.d)[r];
    } else {
      assert StateBytes(s)[i] == WordBytes(s.e)[r];
    }
  }

  lemma OneMore(m: seq<Byte>, x: Byte, k: nat)
    requires k <= |m|
    ensures (m + [x])[..k] == m[..k] && (m + [x])[k..] == m[k..] + [x] && m + [x] == m[..k] + (m[k..] + [x])
    ensures (m + [x])[..|m| + 1] == m + [x] && (m + [x])[|m| + 1..] == []
  {
  }

  lemma Above256(x: int, a: int)
    ensures (256 * x + a) % 256 == a % 256
  {
  }

  lemma Unit24(high: nat, low: nat)
    requires low < TWO32
    ensures OctetValue(high * TWO32 + low, 0x100_0000_0000_0000) == OctetValue(high, 0x100_0000)
    ensures OctetValue(high * TWO32 + low, 0x100_0000) == OctetValue(low, 0x100_0000)
  {
    var q, r, a, b := high / 0x100_0000, high % 0x100_0000, low / 0x100_0000, low % 0x100_0000;
    Quotient(high * TWO32 + low, 0x100_0000_0000_0000, q, r * TWO32 + low);
    Quotient(high * TWO32 + low, 0x100_0000, 256 * (1 * high) + a, b);
    Above256(1 * high, a);
  }

  lemma Unit16(high: nat, low: nat)
    requires low < TWO32
    ensures OctetValue(high * TWO32 + low, 0x1_0000_0000_0000) == OctetValue(high, 0x1_0000)
    ensures OctetValue(high * TWO32 + low, 0x1_0000) == OctetValue(low, 0x1_0000)
  {
    var q, r, a, b := high / 0x1_0000, high % 0x1_0000, low / 0x1_0000, low % 0x1_0000;
    Quotient(high * TWO32 + low, 0x1_0000_0000_0000, q, r * TWO32 + low);
    Quotient(high * TWO32 + low, 0x1_0000, 256 * (0x100 * high) + a, b);
    Above256(0x100 * high, a);
  }

  lemma Unit8(high: nat, low: nat)
    requires low < TWO32
    ensures OctetValue(high * TWO32 + low, 0x100_0000_0000) == OctetValue(high, 0x100)
    ensures OctetValue(high * TWO32 + low, 0x100) == OctetValue(low, 0x100)
  {
    var q, r, a, b := high / 0x100, high % 0x100, low / 0x100, low % 0x100;
    Quotient(high * TWO32 + low, 0x100_0000_0000, q, r * TWO32 + low);
    Quotient(high * TWO32 + low, 0x100, 256 * (0x1_0000 * high) + a, b);
    Above256(0x1_0000 * high, a);
  }

  lemma Unit0(high: nat, low: nat)
    requires low < TWO32
    ensures OctetValue(high * TWO32 + low, 0x1_0000_0000) == OctetValue(high, 0x1)
    ensures OctetValue(high * TWO32 + low, 0x1) == OctetValue(low, 0x1)
  {
    var q, r, a, b := high / 0x1, high % 0x1, low / 0x1, low % 0x1;
    Quotient(high * TWO32 + low, 0x1_0000_0000, q, r * TWO32 + low);
    Quotient(high * TWO32 + low, 0x1, 256 * (0x100_0000 * high) + a, b);
    Above256(0x100_0000 * high, a);
  }

  // The two halves of the bit counter, byte by byte.
  lemma LengthBytes(high: nat, low: nat)
    requires high < TWO32 && low < TWO32
    ensures BigEndian64(high * TWO32 + low) ==
      [Octet(high, 0x100_0000), Octet(high, 0x1_0000), Octet(high, 0x100), Octet(high, 1),
       Octet(low, 0x100_0000), Octet(low, 0x1_0000), Octet(low, 0x100), Octet(low, 1)]
  {
    hide OctetValue;
    Unit24(high, low);
    Unit16(high, low);
    Unit8(high, low);
    Unit0(high, low);
  }

  // The loops of lines 271-292.
  method FirstStages(w: seq<Word>, ghost block: seq<Byte>, ghost h: State, a0: Word, b0: Word, c0: Word, d0: Word, e0: Word)
    returns (a: Word, b: Word, c: Word, d: Word, e: Word)
    requires |block| == 64 && |w| == 80 && (forall j :: 0 <= j < 80 ==> w[j] == W(block, j))
    requires State(a0, b0, c0, d0, e0) == Rounds(h, block, 0)
    ensures State(a, b, c, d, e) == Rounds(h, block, 40)
  {
    hide Rotate, W, Rounds, Turn, Choose, Parity;
    a, b, c, d, e := a0, b0, c0, d0, e0;
    var t := 0;
    while t < 20
      invariant 0 <= t <= 20
      invariant State(a, b, c, d, e) == Rounds(h, block, t)
    {
      RoundsStep(h, block, t);
      a, b, c, d, e := OneTurn(a, b, c, d, e, Choose(b, c, d), w[t], 0x5A827999);
      t := t + 1;
    }
    while t < 40
      invariant 20 <= t <= 40
      invariant State(a, b, c, d, e) == Rounds(h, block, t)
    {
      RoundsStep(h, block, t);
      a, b, c, d, e := OneTurn(a, b, c, d, e, Parity(b, c, d), w[t], 0x6ED9EBA1);
      t := t + 1;
    }
  }

  // The loops of lines 294-315.
  method LastStages(w: seq<Word>, ghost block: seq<Byte>, ghost h: State, a0: Word, b0: Word, c0: Word, d0: Word, e0: Word)
    returns (a: Word, b: Word, c: Word, d: Word, e: Word)
    requires |block| == 64 && |w| == 80 && (forall j :: 0 <= j < 80 ==> w[j] == W(block, j))
    requires State(a0, b0, c0, d0, e0) == Rounds(h, block, 40)
    ensures State(a, b, c, d, e) == Rounds(h, block, 80)
  {
    hide Rotate, W, Rounds, Turn, Majority, Parity;
    a, b, c, d, e := a0, b0, c0, d0, e0;
    var t := 40;
    while t < 60
      invariant 40 <= t <= 60
      invariant State(a, b, c, d, e) == Rounds(h, block, t)
    {
      RoundsStep(h, block, t);
      a, b, c, d, e := OneTurn(a, b, c, d, e, Majority(b, c, d), w[t], 0x8F1BBCDC);
      t := t + 1;
    }
    while t < 80
      invariant 60 <= t <= 80
      invariant State(a, b, c, d, e) == Rounds(h, block, t)
    {
      RoundsStep(h, block, t);
      a, b, c, d, e := OneTurn(a, b, c, d, e, Parity(b, c, d), w[t], 0xCA62C1D6);
      t := t + 1;
    }
  }

  // The body shared by the four loops of SHA1ProcessMessageBlock.
  method OneTurn(a: Word, b: Word, c: Word, d: Word, e: Word, f: Word, w: Word, k: Word)
    returns (a': Word, b': Word, c': Word, d': Word, e': Word)
    ensures State(a', b', c', d', e') == Turn(State(a, b, c, d, e), f, w, k)
  {
    hide Rotate, Sum;
    var temp := Sum(Rotate(5, a), f, e, w, k);
    e' := d;
    d' := c;
    c' := Rotate(30, b);
    b' := a;
    a' := temp;
  }

  // Lines 254-257.
  method FromBytes(b0: Byte, b1: Byte, b2: Byte, b3: Byte) returns (w: Word)
    ensures w == WordOf(b0, b1, b2, b3)
  {
    w := (b0 as Word) << 24;
    w := w | ((b1 as Word) << 16);
    w := w | ((b2 as Word) << 8);
    w := w | (b3 as Word);
  }
}
