// Chunks written behind the frames, and the tags that caf_read_frames passes on
// when it meets them (src-fdkaac/src/caf_reader.c, lines 154-163).
module CafChunks {
  import opened OptionTable
  import opened Arithmetic
  import opened CafInfo
  import opened CafStream

  // ---------------------------------------------------------------- a writer

  // A tag chunk is a count, whatever it says, and a list of pairs; any other
  // chunk has a type and some bytes.
  datatype Written = Tags(count: seq<Byte>, pairs: seq<Tag>) | Other(fcc: seq<Byte>, bytes: seq<Byte>)

  // Eight bytes, the most significant first.
  function EightBytes(n: nat): (b: seq<Byte>)
    requires n < 0x8000_0000_0000_0000
    ensures |b| == 8
  {
    [n / 0x100_0000_0000_0000, n / 0x1_0000_0000_0000 % 0x100, n / 0x100_0000_0000 % 0x100, n / 0x1_0000_0000 % 0x100,
     n / 0x100_0000 % 0x100, n / 0x1_0000 % 0x100, n / 0x100 % 0x100, n % 0x100]
  }

  predicate WellMade(c: Written) {
    match c
    case Tags(count, pairs) =>
      |count| == 4 && |pairs| > 0 &&
      (forall i :: 0 <= i < |pairs| ==> pairs[i].Pair? && 0 !in pairs[i].key && 0 !in pairs[i].value) &&
      |Body(c)| < 0x8000_0000_0000_0000
    case Other(fcc, bytes) =>
      |fcc| == 4 && fcc != [0, 0, 0, 0] && fcc != [0x69, 0x6e, 0x66, 0x6f] && |bytes| < 0x8000_0000_0000_0000
  }

  // Key, NUL, value, NUL, and so on.
  function Strings(pairs: seq<Tag>): seq<Byte> {
    if |pairs| == 0 then []
    else (if pairs[0].Pair? then pairs[0].key + [0] + pairs[0].value + [0] else []) + Strings(pairs[1..])
  }

  function Body(c: Written): seq<Byte> {
    match c
    case Tags(count, pairs) => count + Strings(pairs)
    case Other(_, bytes) => bytes
  }

  // 'info', or the type of another chunk, the size, and the body.
  function Write(c: Written): seq<Byte>
    requires WellMade(c)
  {
    (if c.Tags? then [0x69, 0x6e, 0x66, 0x6f] else c.fcc) + EightBytes(|Body(c)|) + Body(c)
  }

  ghost predicate AllWellMade(chunks: seq<Written>) {
    forall i :: 0 <= i < |chunks| ==> WellMade(chunks[i])
  }

  function WriteAll(chunks: seq<Written>): seq<Byte>
    requires AllWellMade(chunks)
  {
    if |chunks| == 0 then [] else Write(chunks[0]) + WriteAll(chunks[1..])
  }

  // The calls to be made: the pairs of each tag chunk, then one without any.
  function Calls(chunks: seq<Written>): seq<Tag> {
    if |chunks| == 0 then []
    else (if chunks[0].Tags? then chunks[0].pairs + [NoMore] else []) + Calls(chunks[1..])
  }

  // ---------------------------------------------------------------- numbers

  lemma NumberStep(s: seq<Byte>, x: Byte)
    ensures Number(s + [x]) == Number(s) * 0x100 + x
  {
    assert (s + [x])[..|s|] == s;
  }

  lemma DivTwice(n: nat, d: nat)
    requires d > 0
    ensures n / (d * 0x100) == n / d / 0x100
    ensures n / d == n / (d * 0x100) * 0x100 + n / d % 0x100
  {
    var q, r := QuotientRemainder(n, d);
    Quotient(n, d, q, r);
    var p, s := QuotientRemainder(q, 0x100);
    Quotient(q, 0x100, p, s);
    Nested(n, d, p, s, r);
  }

  lemma Nested(n: nat, d: nat, p: int, s: nat, r: nat)
    requires d > 0 && n == (p * 0x100 + s) * d + r && r < d && s < 0x100
    ensures n / (d * 0x100) == p
  {
    assert n == p * (d * 0x100) + (s * d + r);
    assert s * d + r < d * 0x100 by {
      MulAtLeast(0x100 - s, d);
      assert (0x100 - s) * d == 0x100 * d - s * d;
    }
    Quotient(n, d * 0x100, p, s * d + r);
  }

  lemma NumberOfEight(n: nat)
    requires n < 0x8000_0000_0000_0000
    ensures Number(EightBytes(n)) == n
  {
    var b := EightBytes(n);
    hide Number;
    NumberOfOne(b);
    Leading(b, 1);
    Leading(b, 2);
    Leading(b, 3);
    Leading(b, 4);
    Leading(b, 5);
    Leading(b, 6);
    Leading(b, 7);
    DivTwice(n, 1);
    DivTwice(n, 0x100);
    DivTwice(n, 0x1_0000);
    DivTwice(n, 0x100_0000);
    DivTwice(n, 0x1_0000_0000);
    DivTwice(n, 0x100_0000_0000);
    DivTwice(n, 0x1_0000_0000_0000);
    assert b[..8] == b;
  }

  // Sizes from 2^63 on are negative.
  lemma SizeIsSigned(data: seq<Byte>, at: nat)
    requires at + 8 <= |data|
    ensures var n := Number(data[at..at + 8]);
      SizeAt(data, at) == if n < 9223372036854775808 then n else n - 18446744073709551616
  {
  }

  lemma NumberOfOne(b: seq<Byte>)
    requires |b| > 0
    ensures Number(b[..1]) == b[0]
  {
    assert b[..1][..0] == [];
  }

  lemma Leading(b: seq<Byte>, k: nat)
    requires k < |b|
    ensures Number(b[..k + 1]) == Number(b[..k]) * 0x100 + b[k]
  {
    assert b[..k + 1] == b[..k] + [b[k]];
    NumberStep(b[..k], b[k]);
  }

  // ------------------------------------------------------------ reading back

  lemma {:induction false} StringsJoined(pairs: seq<Tag>)
    requires forall i :: 0 <= i < |pairs| ==> pairs[i].Pair?
    ensures Strings(pairs) == Join(Flatten(pairs))
  {
    if |pairs| > 0 {
      StringsJoined(pairs[1..]);
      TwoJoined(pairs[0].key, pairs[0].value, Flatten(pairs[1..]));
    }
  }

  lemma TwoJoined(k: seq<Byte>, v: seq<Byte>, more: seq<seq<Byte>>)
    ensures Join([k, v] + more) == k + [0] + v + [0] + Join(more)
  {
    var all := [k, v] + more;
    assert all[1..] == [v] + more && all[1..][1..] == more;
    assert (k + [0]) + ((v + [0]) + Join(more)) == k + [0] + v + [0] + Join(more);
  }

  // caf_info makes of a tag chunk what was written.
  lemma InfoReadBack(c: Written)
    requires WellMade(c) && c.Tags?
    ensures Info(Body(c)) == Called(c.pairs + [NoMore])
  {
    StringsJoined(c.pairs);
    InfoRoundTrip(c.count, c.pairs);
  }

  // The parts of a chunk behind pre and in front of rest.
  lemma ChunkParts(pre: seq<Byte>, c: Written, rest: seq<Byte>)
    requires WellMade(c)
    ensures var data, at, n := pre + (Write(c) + rest), |pre|, |Body(c)|;
      |data| == at + 12 + n + |rest| &&
      data[at..at + 4] == (if c.Tags? then [0x69, 0x6e, 0x66, 0x6f] else c.fcc) &&
      data[at + 4..at + 12] == EightBytes(n) && data[at + 12..at + 12 + n] == Body(c)
  {
    var fcc: seq<Byte> := if c.Tags? then [0x69, 0x6e, 0x66, 0x6f] else c.fcc;
    hide Body, EightBytes, WellMade;
    assert |fcc| == 4 by { FccLength(c); }
    Slices(pre, fcc, EightBytes(|Body(c)|), Body(c), rest);
  }

  lemma FccLength(c: Written)
    requires WellMade(c)
    ensures c.Other? ==> |c.fcc| == 4
  {
  }

  lemma Slices(pre: seq<Byte>, a: seq<Byte>, b: seq<Byte>, c: seq<Byte>, rest: seq<Byte>)
    ensures var data, i, j, k := pre + ((a + b + c) + rest), |pre|, |pre| + |a|, |pre| + |a| + |b|;
      |data| == k + |c| + |rest| && data[i..j] == a && data[j..k] == b && data[k..k + |c|] == c
  {
  }

  lemma HeaderReadBack(pre: seq<Byte>, c: Written, rest: seq<Byte>)
    requires WellMade(c)
    ensures HeaderAt(pre + (Write(c) + rest), |pre|) == Chunk(c.Tags?, |Body(c)|, |pre| + 12)
  {
    ChunkParts(pre, c, rest);
    NumberOfEight(|Body(c)|);
    hide Write, EightBytes, Body, Number;
  }

  // The scan over written chunks, and fewer than twelve bytes behind them, goes
  // to the end and makes just the calls that were written.
  lemma {:induction false} ScanReadsBack(pre: seq<Byte>, chunks: seq<Written>, tail: seq<Byte>)
    requires AllWellMade(chunks) && |tail| < 12
    ensures var data := pre + (WriteAll(chunks) + tail);
      Sound(data, |pre|) && Scan(data, |pre|) == (|data|, Calls(chunks))
    decreases |chunks|
  {
    hide Write, WellMade, HeaderAt, Info, Body;
    var data := pre + (WriteAll(chunks) + tail);
    if |chunks| == 0 {
      NothingWritten(data, |pre|);
    } else {
      var c, more := chunks[0], WriteAll(chunks[1..]) + tail;
      assert data == pre + (Write(c) + more);
      assert data == (pre + Write(c)) + more;
      HeaderReadBack(pre, c, more);
      ChunkParts(pre, c, more);
      WrittenLength(c);
      ScanReadsBack(pre + Write(c), chunks[1..], tail);
      if c.Tags? {
        InfoReadBack(c);
        AtLeastFour(c);
      }
      OneChunkScanned(data, |pre|, c, Calls(chunks[1..]));
      assert [] + Calls(chunks[1..]) == Calls(chunks[1..]);
    }
  }

  lemma NothingWritten(data: seq<Byte>, at: nat)
    requires at <= |data| < at + 12
    ensures Sound(data, at) && Scan(data, at) == (|data|, [])
  {
  }

  lemma WrittenLength(c: Written)
    requires WellMade(c)
    ensures |Write(c)| == 12 + |Body(c)|
  {
  }

  lemma AtLeastFour(c: Written)
    requires WellMade(c) && c.Tags?
    ensures |Body(c)| >= 4
  {
  }

  lemma OneChunkScanned(data: seq<Byte>, at: nat, c: Written, calls: seq<Tag>)
    requires var end := at + 12 + |Body(c)|;
      end <= |data| && HeaderAt(data, at) == Chunk(c.Tags?, |Body(c)|, at + 12) && data[at + 12..end] == Body(c) &&
      Sound(data, end) && Scan(data, end) == (|data|, calls)
    requires c.Tags? ==> |Body(c)| >= 4 && Info(Body(c)) == Called(c.pairs + [NoMore])
    ensures Sound(data, at)
    ensures Scan(data, at) == (|data|, (if c.Tags? then c.pairs + [NoMore] else []) + calls)
  {
    hide Body, Info, HeaderAt;
    assert [] + calls == calls;
  }

  // Four zero bytes for a type end the scan, and so does a tag chunk too short
  // for its count; neither makes a call.
  lemma ScanEnds(data: seq<Byte>, at: nat, n: nat)
    requires at + 12 <= |data| && n < 4
    ensures data[at..at + 4] == [0, 0, 0, 0] ==> Scan(data, at) == (at + 12, [])
    ensures data[at..at + 4] == [0x69, 0x6e, 0x66, 0x6f] && data[at + 4..at + 12] == EightBytes(n) ==>
      Scan(data, at) == (at + 12, [])
  {
    NumberOfEight(n);
    hide Number, EightBytes, Info;
  }

  // ------------------------------------------------- behind the frames of a file

  // The bytes of n frames.
  function Span(bpf: nat, n: nat): (k: nat) {
    AtMost(0, n, bpf);
    n * bpf
  }

  lemma SpanAdds(bpf: nat, m: nat, n: nat)
    ensures Span(bpf, m + n) == Span(bpf, m) + Span(bpf, n) && Span(bpf, 0) == 0
  {
    Distribute(m, n, bpf);
  }

  // A file: something in front, all the frames, chunks, and a rest too short
  // for another chunk.
  ghost predicate IsFile(src: Source, front: seq<Byte>, chunks: seq<Written>, tail: seq<Byte>) {
    AllWellMade(chunks) && |tail| < 12 && src.Valid() &&
    |front| == src.offset + Span(src.format.bytesPerFrame, src.length) && src.data == front + (WriteAll(chunks) + tail)
  }

  lemma LengthFits(bpf: nat, size: nat, length: nat)
    requires bpf > 0 && length * bpf <= size
    ensures length <= size / bpf
  {
    var q, r := QuotientRemainder(size, bpf);
    Quotient(size, bpf, q, r);
    if length >= q + 1 {
      AtMost(q + 1, length, bpf);
      Distribute(q, 1, bpf);
      assert false;
    }
  }

  lemma AllFramesThere(src: Source, front: seq<Byte>, chunks: seq<Written>, tail: seq<Byte>)
    requires IsFile(src, front, chunks, tail)
    ensures src.Available() == src.length
  {
    LengthFits(src.format.bytesPerFrame, |src.data| - src.offset, src.length);
  }

  // The reader right behind the first m frames.
  function Behind(src: Source, m: nat): Reader {
    Reader(src.offset + Span(src.format.bytesPerFrame, m), m, [])
  }

  // Requests up to the last frame leave the reader right behind the frames.
  lemma {:induction false} BehindFrames(src: Source, sizes: seq<nat>)
    requires src.Valid() && Positive(sizes) && CafStream.Total(sizes) <= src.length == src.Available()
    ensures Requests(src, Reader(src.offset, 0, []), sizes).0 == Behind(src, CafStream.Total(sizes))
  {
    hide Frames, ReadStep, Requests, Span, Source.Available;
    if |sizes| > 0 {
      var front, n := sizes[..|sizes| - 1], sizes[|sizes| - 1];
      assert sizes == front + [n];
      BehindFrames(src, front);
      OneMoreBehind(src, front, n);
    } else {
      OneRequest(src, Reader(src.offset, 0, []), [], 0);
      SpanAdds(src.format.bytesPerFrame, 0, 0);
    }
  }

  lemma OneMoreBehind(src: Source, front: seq<nat>, n: nat)
    requires src.Valid() && Positive(front) && n > 0 && CafStream.Total(front) + n <= src.length == src.Available()
    requires Requests(src, Reader(src.offset, 0, []), front).0 == Behind(src, CafStream.Total(front))
    ensures Requests(src, Reader(src.offset, 0, []), front + [n]).0 == Behind(src, CafStream.Total(front) + n)
  {
    hide Frames, ReadStep, OnTrack, Source.Valid, Source.Available, Requests, Span, CafStream.Total;
    RequestsDeliver(src, front);
    OneRequest(src, Reader(src.offset, 0, []), front, n);
    ExactStep(src, Behind(src, CafStream.Total(front)), n);
    SpanAdds(src.format.bytesPerFrame, CafStream.Total(front), n);
  }

  lemma NoFramesYet(bpf: nat)
    ensures 0 * bpf == 0
  {
  }

  // A request for frames that are all there.
  lemma ExactStep(src: Source, r: Reader, n: nat)
    requires OnTrack(src, r) && n > 0 && r.position + n <= src.length == src.Available()
    ensures ReadStep(src, r, n).0 == Reader(r.cursor + Span(src.format.bytesPerFrame, n), r.position + n, r.tags)
  {
    FramesGot(src, r, n);
    hide Scan, RemapAll, BytesRead, FramesRead, OnTrack;
  }

  // The request after the last frame delivers no frame and makes just the
  // calls that were written.
  lemma TagsReadBack(src: Source, front: seq<Byte>, chunks: seq<Written>, tail: seq<Byte>, r: Reader, n: nat)
    requires IsFile(src, front, chunks, tail) && r.cursor == |front| && r.position == src.length
    ensures ReadStep(src, r, n) == (Reader(|src.data|, r.position, r.tags + Calls(chunks)), [])
    ensures FramesRead(src, r, n) == 0 && Sound(src.data, r.cursor + BytesRead(src, r, n))
  {
    ScanReadsBack(front, chunks, tail);
    NothingWanted(src, r, n);
    hide Scan, Sound, BytesRead, FramesRead;
  }

  lemma NothingWanted(src: Source, r: Reader, n: nat)
    requires Fits(src, r) && r.position == src.length
    ensures BytesRead(src, r, n) == 0 && FramesRead(src, r, n) == 0
  {
    NoFramesYet(src.format.bytesPerFrame);
  }

  // A file from its first frame to its last chunk: all frames, however the
  // requests are cut, and then all tags.
  lemma WholeFileRead(src: Source, front: seq<Byte>, chunks: seq<Written>, tail: seq<Byte>, sizes: seq<nat>, n: nat)
    requires IsFile(src, front, chunks, tail) && Positive(sizes) && CafStream.Total(sizes) == src.length
    ensures src.Available() == src.length
    ensures Requests(src, Reader(src.offset, 0, []), sizes + [n]) ==
            (Reader(|src.data|, src.length, Calls(chunks)), Frames(src, 0, src.length))
  {
    AllFramesThere(src, front, chunks, tail);
    BehindFrames(src, sizes);
    RequestsDeliver(src, sizes);
    BehindFront(src, front, chunks, tail);
    TagsReadBack(src, front, chunks, tail, Behind(src, src.length), n);
    hide Requests, ReadStep, Frames, IsFile, Behind, Source.Valid, Source.Available, Calls, OnTrack;
    OneRequest(src, Reader(src.offset, 0, []), sizes, n);
    assert Frames(src, 0, src.length) + [] == Frames(src, 0, src.length);
  }

  lemma BehindFront(src: Source, front: seq<Byte>, chunks: seq<Written>, tail: seq<Byte>)
    requires IsFile(src, front, chunks, tail)
    ensures Behind(src, src.length) == Reader(|front|, src.length, []) && [] + Calls(chunks) == Calls(chunks)
  {
  }

  // ------------------------------------------------------------ byte by byte

  // Byte k of sample j of frame i delivered is that byte of sample chanmap[j]
  // of the frame in the file.
  lemma DeliveredByte(src: Source, p: nat, m: nat, i: nat, j: nat, k: nat)
    requires src.Valid() && p + m <= src.Available() && i < m && j < src.format.channels
    requires k < src.format.bytesPerFrame / src.format.channels
    ensures var bpf, w := src.format.bytesPerFrame, src.format.bytesPerFrame / src.format.channels;
      var at, from := i * bpf + w * j + k, src.offset + (p + i) * bpf + w * src.format.chanmap[j] + k;
      0 <= at < |Frames(src, p, m)| && 0 <= from < |src.data| && Frames(src, p, m)[at] == src.data[from]
  {
    FramesAre(src, p, m);
    var f, o, size := src.format, src.offset + p * src.format.bytesPerFrame, m * src.format.bytesPerFrame;
    RemappedByte(f, src.data[o..o + size], m, i, j, k);
    Distribute(p, i, f.bytesPerFrame);
    SliceAt(src.data, o, size, i * f.bytesPerFrame + f.Width() * f.chanmap[j] + k);
    hide Frames, RemapAll, Source.Valid, Format.Valid, Source.Available;
  }

  lemma SliceAt(data: seq<Byte>, o: nat, size: nat, x: nat)
    requires o + size <= |data| && x < size
    ensures data[o..o + size][x] == data[o + x]
  {
  }

  lemma RemappedByte(f: Format, bytes: seq<Byte>, m: nat, i: nat, j: nat, k: nat)
    requires f.Valid() && |bytes| == m * f.bytesPerFrame && i < m && j < f.channels && k < f.Width()
    ensures var at, u, v := i * f.bytesPerFrame, f.Width() * j, f.Width() * f.chanmap[j];
      0 <= at && 0 <= u && 0 <= v && at + u + k < |bytes| && at + v + k < |bytes| &&
      RemapAll(f, bytes, m)[at + u + k] == bytes[at + v + k]
  {
    var bpf, u, v := f.bytesPerFrame, f.Width() * j, f.Width() * f.chanmap[j];
    RemapAllFrame(f, bytes, m, i);
    MulUpTo(bpf, i, m);
    var frame := bytes[i * bpf..i * bpf + bpf];
    FrameByte(f, frame, j, k);
    hide RemapAll, Remapped, Format.Valid, Format.Width;
    ByteThrough(RemapAll(f, bytes, m), bytes, Remapped(f, frame, f.channels), i * bpf, bpf, u + k, v + k);
  }

  lemma FrameByte(f: Format, frame: seq<Byte>, j: nat, k: nat)
    requires f.Valid() && |frame| == f.bytesPerFrame && j < f.channels && k < f.Width()
    ensures var u, v := f.Width() * j, f.Width() * f.chanmap[j];
      |Remapped(f, frame, f.channels)| == |frame| && 0 <= u && 0 <= v && u + k < |frame| && v + k < |frame| &&
      Remapped(f, frame, f.channels)[u + k] == frame[v + k]
  {
    WidthTimes(f, j);
    WidthTimes(f, f.chanmap[j]);
    RemappedChannel(f, frame, f.channels, j);
    ChannelIs(f, frame, f.chanmap[j]);
    var r, w, u, v := Remapped(f, frame, f.channels), f.Width(), f.Width() * j, f.Width() * f.chanmap[j];
    hide Remapped, Channel, Format.Valid, Format.Width;
    assert r[u + k] == r[u..u + w][k] == frame[v..v + w][k];
  }

  lemma ChannelIs(f: Format, frame: seq<Byte>, c: nat)
    requires f.Valid() && |frame| == f.bytesPerFrame && c < f.channels
    ensures 0 <= f.Width() * c && f.Width() * c + f.Width() <= |frame|
    ensures Channel(f, frame, c) == frame[f.Width() * c..f.Width() * c + f.Width()]
  {
    WidthTimes(f, c);
  }

  lemma FramesAre(src: Source, p: nat, m: nat)
    requires src.Valid() && p + m <= src.Available()
    ensures var o, size := src.offset + p * src.format.bytesPerFrame, m * src.format.bytesPerFrame;
      0 <= size && 0 <= o <= o + size <= |src.data| && Frames(src, p, m) == RemapAll(src.format, src.data[o..o + size], m)
  {
    FramesInside(src, p, m);
  }

  lemma ByteThrough(out: seq<Byte>, bytes: seq<Byte>, r: seq<Byte>, at: nat, size: nat, i: nat, j: nat)
    requires at + size <= |out| == |bytes| && |r| == size && i < size && j < size
    requires out[at..at + size] == r && r[i] == bytes[at..at + size][j]
    ensures out[at + i] == bytes[at + j]
  {
    assert out[at + i] == out[at..at + size][i];
  }
}
