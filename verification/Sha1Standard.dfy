// SHA-1 as FIPS 180-1 defines it for messages of whole bytes: padding
// (section 4), functions and constants (sections 5 and 6), computation of the
// digest (section 7).
module Sha1Standard {

  type Byte = bv8
  type Word = bv32

  // The five words of the digest, and the buffers A to E.
  datatype State = State(a: Word, b: Word, c: Word, d: Word, e: Word)

  const Initial := State(0x67452301, 0xEFCDAB89, 0x98BADCFE, 0x10325476, 0xC3D2E1F0)

  // The circular left shift and the sums and bit functions of the standard,
  // on 32-bit words.
  function Rotate(n: nat, x: Word): Word
    requires n <= 32
  {
    (x << n) | (x >> (32 - n))
  }

  function Plus(a: Word, b: Word): Word {
    a + b
  }

  function Sum(a: Word, b: Word, c: Word, d: Word, e: Word): Word {
    a + b + c + d + e
  }

  function Choose(b: Word, c: Word, d: Word): Word {
    (b & c) | ((!b) & d)
  }

  function Parity(b: Word, c: Word, d: Word): Word {
    b ^ c ^ d
  }

  function Majority(b: Word, c: Word, d: Word): Word {
    (b & c) | (b & d) | (c & d)
  }

  function Xor4(a: Word, b: Word, c: Word, d: Word): Word {
    a ^ b ^ c ^ d
  }

  function F(t: nat, b: Word, c: Word, d: Word): Word {
    if t < 20 then Choose(b, c, d)
    else if 40 <= t < 60 then Majority(b, c, d)
    else Parity(b, c, d)
  }

  function K(t: nat): Word {
    if t < 20 then 0x5A827999
    else if t < 40 then 0x6ED9EBA1
    else if t < 60 then 0x8F1BBCDC
    else 0xCA62C1D6
  }

  // Four bytes, the most significant first.
  function WordOf(b0: Byte, b1: Byte, b2: Byte, b3: Byte): Word {
    ((b0 as Word) << 24) | ((b1 as Word) << 16) | ((b2 as Word) << 8) | (b3 as Word)
  }

  function WordAt(block: seq<Byte>, t: nat): Word
    requires 4 * t + 4 <= |block|
  {
    WordOf(block[4 * t], block[4 * t + 1], block[4 * t + 2], block[4 * t + 3])
  }

  function W(block: seq<Byte>, t: nat): Word
    requires |block| == 64 && t < 80
  {
    if t < 16 then WordAt(block, t)
    else Rotate(1, Xor4(W(block, t - 3), W(block, t - 8), W(block, t - 14), W(block, t - 16)))
  }

  // Step (d) of section 7: one turn of the five buffers.
  function Turn(s: State, f: Word, w: Word, k: Word): State {
    State(Sum(Rotate(5, s.a), f, s.e, w, k), s.a, Rotate(30, s.b), s.c, s.d)
  }

  function Rounds(s: State, block: seq<Byte>, t: nat): State
    requires |block| == 64 && t <= 80
  {
    if t == 0 then s else
      var r := Rounds(s, block, t - 1);
      Turn(r, F(t - 1, r.b, r.c, r.d), W(block, t - 1), K(t - 1))
  }

  lemma RoundsStep(s: State, block: seq<Byte>, t: nat)
    requires |block| == 64 && t < 80
    ensures Rounds(s, block, 0) == s
    ensures var r := Rounds(s, block, t);
      Rounds(s, block, t + 1) == Turn(r, F(t, r.b, r.c, r.d), W(block, t), K(t))
  {
    hide W, Turn, F, K;
  }

  // The words of a block, and those that follow.
  lemma WStep(block: seq<Byte>, t: nat)
    requires |block| == 64 && t < 80
    ensures t < 16 ==> W(block, t) == WordAt(block, t)
    ensures t >= 16 ==>
      W(block, t) == Rotate(1, Xor4(W(block, t - 3), W(block, t - 8), W(block, t - 14), W(block, t - 16)))
  {
    hide Rotate, WordAt, Xor4;
  }

  function Add(s: State, r: State): State {
    State(Plus(s.a, r.a), Plus(s.b, r.b), Plus(s.c, r.c), Plus(s.d, r.d), Plus(s.e, r.e))
  }

  function Compress(s: State, block: seq<Byte>): State
    requires |block| == 64
  {
    Add(s, Rounds(s, block, 80))
  }

  function HashBlocks(s: State, bytes: seq<Byte>): State
    requires |bytes| % 64 == 0
    decreases |bytes|
  {
    if |bytes| < 64 then s else HashBlocks(Compress(s, bytes[..64]), bytes[64..])
  }

  // The bytes of n that fill whole blocks.
  function Whole(n: nat): (k: nat)
    ensures k % 64 == 0 && k <= n < k + 64 && n - k == n % 64
  {
    n / 64 * 64
  }

  // ---------------------------------------------------------------- padding

  function Zeros(n: nat): (z: seq<Byte>)
    ensures |z| == n && forall i :: 0 <= i < n ==> z[i] == 0
  {
    seq(n, _ => 0)
  }

  // The byte of n above unit, a power of 256.
  function OctetValue(n: nat, unit: nat): (v: nat)
    requires unit > 0
    ensures v < 256
  {
    n / unit % 256
  }

  function Octet(n: nat, unit: nat): Byte
    requires unit > 0
  {
    OctetValue(n, unit) as Byte
  }

  // n as eight bytes, the most significant first.
  function BigEndian64(n: nat): (b: seq<Byte>)
    ensures |b| == 8
  {
    [Octet(n, 0x100_0000_0000_0000), Octet(n, 0x1_0000_0000_0000), Octet(n, 0x100_0000_0000), Octet(n, 0x1_0000_0000),
     Octet(n, 0x100_0000), Octet(n, 0x1_0000), Octet(n, 0x100), Octet(n, 1)]
  }

  // The number of zero bytes between 0x80 and the length.
  function ZeroCount(n: nat): nat {
    (119 - n % 64) % 64
  }

  // Messages are shorter than 2^64 bits.
  predicate Admissible(m: seq<Byte>) {
    |m| < 0x2000_0000_0000_0000
  }

  function Pad(m: seq<Byte>): seq<Byte>
    requires Admissible(m)
  {
    m + [0x80] + Zeros(ZeroCount(|m|)) + BigEndian64(8 * |m|)
  }

  function ByteOf(w: Word, i: nat): Byte
    requires i < 4
  {
    ((w >> (8 * (3 - i))) & 0xFF) as Byte
  }

  function WordBytes(w: Word): seq<Byte> {
    [ByteOf(w, 0), ByteOf(w, 1), ByteOf(w, 2), ByteOf(w, 3)]
  }

  function StateBytes(s: State): (b: seq<Byte>)
    ensures |b| == 20
  {
    WordBytes(s.a) + WordBytes(s.b) + WordBytes(s.c) + WordBytes(s.d) + WordBytes(s.e)
  }

  function Digest(m: seq<Byte>): (d: seq<Byte>)
    requires Admissible(m)
    ensures |d| == 20
  {
    PadLength(m);
    StateBytes(HashBlocks(Initial, Pad(m)))
  }

  // -------------------------------------------------------------- properties

  lemma WholeBlocks(n: nat)
    ensures (n + 1 + ZeroCount(n) + 8) % 64 == 0
  {
    var q, r := n / 64, n % 64;
    assert n == 64 * q + r;
    assert n + 1 + ZeroCount(n) + 8 == 64 * (q + if r <= 55 then 1 else 2);
  }

  // The padded message fills whole blocks ...
  lemma PadLength(m: seq<Byte>)
    requires Admissible(m)
    ensures |Pad(m)| % 64 == 0 && |Pad(m)| == |m| + 1 + ZeroCount(|m|) + 8
  {
    WholeBlocks(|m|);
  }

  // ... and no fewer zero bytes would do.
  lemma FewestZeros(m: seq<Byte>, k: nat)
    requires (|m| + 1 + k + 8) % 64 == 0
    ensures ZeroCount(|m|) <= k
  {
    var q, r := |m| / 64, |m| % 64;
    assert |m| == 64 * q + r;
    assert (r + 9 + k) % 64 == 0;
  }

  // Hashing goes block by block, wherever the bytes are cut.
  lemma {:induction false} HashAppend(s: State, x: seq<Byte>, y: seq<Byte>)
    requires |x| % 64 == 0 && |y| % 64 == 0
    ensures (|x| + |y|) % 64 == 0
    ensures HashBlocks(s, x + y) == HashBlocks(HashBlocks(s, x), y)
    decreases |x|
  {
    if |x| < 64 {
      assert x + y == y;
    } else {
      assert (x + y)[..64] == x[..64] && (x + y)[64..] == x[64..] + y;
      HashAppend(Compress(s, x[..64]), x[64..], y);
    }
  }

  lemma HashOne(s: State, x: seq<Byte>)
    requires |x| == 64
    ensures HashBlocks(s, x) == Compress(s, x)
  {
    assert x[..64] == x && x[64..] == [];
    assert HashBlocks(Compress(s, x), []) == Compress(s, x);
  }

  // Different messages are padded differently.
  lemma PadInjective(m: seq<Byte>, n: seq<Byte>)
    requires Admissible(m) && Admissible(n) && Pad(m) == Pad(n)
    ensures m == n
  {
    var p := Pad(m);
    assert p[|m|] == 0x80 && p[|n|] == 0x80;
    assert |m| == |n|;
    assert m == p[..|m|] && n == p[..|n|];
  }

  lemma WholeStep(n: nat)
    ensures Whole(n + 1) == if n - Whole(n) == 63 then n + 1 else Whole(n)
  {
  }

  // One more full block.
  lemma HashNext(s: State, x: seq<Byte>, block: seq<Byte>)
    requires |x| % 64 == 0 && |block| == 64
    ensures (|x| + 64) % 64 == 0 && HashBlocks(s, x + block) == Compress(HashBlocks(s, x), block)
  {
    HashAppend(s, x, block);
    HashOne(HashBlocks(s, x), block);
  }

  // The last one or two blocks of the padded message, as SHA1PadMessage
  // builds them from the bytes left in the buffer.
  lemma PadBlocks(m: seq<Byte>, block1: seq<Byte>, block2: seq<Byte>)
    requires Admissible(m)
    requires var tail := m[Whole(|m|)..];
      var len := BigEndian64(8 * |m|);
      if |tail| > 55 then block1 == tail + [0x80] + Zeros(63 - |tail|) && block2 == Zeros(56) + len
      else block1 == tail + [0x80] + Zeros(55 - |tail|) + len && block2 == []
    ensures |block1| == 64 && |block2| % 64 == 0
    ensures Pad(m) == m[..Whole(|m|)] + (block1 + block2)
  {
    var k := Whole(|m|);
    var tail := m[k..];
    assert m == m[..k] + tail;
    hide BigEndian64, Whole;
    if |tail| > 55 {
      assert ZeroCount(|m|) == 63 - |tail| + 56;
      assert Zeros(ZeroCount(|m|)) == Zeros(63 - |tail|) + Zeros(56);
    } else {
      assert ZeroCount(|m|) == 55 - |tail|;
    }
  }

  lemma HashPad(m: seq<Byte>, block1: seq<Byte>, block2: seq<Byte>)
    requires Admissible(m) && |block1| == 64 && |block2| in {0, 64}
    requires Pad(m) == m[..Whole(|m|)] + (block1 + block2)
    ensures |Pad(m)| % 64 == 0
    ensures var h := Compress(HashBlocks(Initial, m[..Whole(|m|)]), block1);
      HashBlocks(Initial, Pad(m)) == if |block2| == 0 then h else Compress(h, block2)
  {
    hide Compress, Pad, BigEndian64;
    var x := m[..Whole(|m|)];
    HashNext(Initial, x, block1);
    if |block2| == 0 {
      assert x + (block1 + block2) == x + block1;
    } else {
      HashNext(Initial, x + block1, block2);
      assert x + (block1 + block2) == (x + block1) + block2;
    }
  }
}
