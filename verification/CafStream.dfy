// The frames of a CAF data chunk as a caller of caf_read_frames gets them
// (src-fdkaac/src/caf_reader.c, lines 127-168).
module CafStream {
  import opened OptionTable
  import opened Arithmetic
  import opened CafInfo

  const INFO: seq<Byte> := [0x69, 0x6e, 0x66, 0x6f]   // 'info'

  // A description caf_desc accepts, of frames that fit the 64 bytes of tmp.
  datatype Format = Format(bytesPerFrame: nat, channels: nat, chanmap: seq<nat>)
  {
    predicate Valid() {
      1 <= channels <= 8 && 0 < bytesPerFrame <= 64 && bytesPerFrame % channels == 0 && channels <= |chanmap| &&
      forall j :: 0 <= j < channels ==> chanmap[j] < channels
    }

    function Width(): nat
      requires Valid()
    {
      bytesPerFrame / channels
    }
  }

  lemma WidthTimes(f: Format, j: nat)
    requires f.Valid() && j < f.channels
    ensures f.Width() * f.channels == f.bytesPerFrame
    ensures 0 <= f.Width() * j && f.Width() * j + f.Width() <= f.bytesPerFrame
    ensures f.Width() * j + f.Width() == f.Width() * (j + 1)
  {
    var q, r := QuotientRemainder(f.bytesPerFrame, f.channels);
    DivideExact(q, f.channels);
    MulUpTo(f.Width(), j, f.channels);
  }

  lemma MulUpTo(w: nat, j: nat, n: nat)
    requires j < n
    ensures 0 <= w * j && w * j + w == w * (j + 1) <= w * n
  {
    assert w * n == w * (j + 1) + w * (n - j - 1);
    assert w * (n - j - 1) >= 0;
  }

  // Sample c of a frame.
  function Channel(f: Format, frame: seq<Byte>, c: nat): (s: seq<Byte>)
    requires f.Valid() && |frame| == f.bytesPerFrame && c < f.channels
    ensures |s| == f.Width()
  {
    WidthTimes(f, c);
    frame[f.Width() * c..f.Width() * c + f.Width()]
  }

  // The first n samples of a frame in the order of chanmap.
  function Remapped(f: Format, frame: seq<Byte>, n: nat): (s: seq<Byte>)
    requires f.Valid() && |frame| == f.bytesPerFrame && n <= f.channels
    ensures |s| == f.Width() * n
  {
    if n == 0 then [] else
      WidthTimes(f, n - 1);
      Remapped(f, frame, n - 1) + Channel(f, frame, f.chanmap[n - 1])
  }

  lemma {:induction false} RemappedChannel(f: Format, frame: seq<Byte>, n: nat, j: nat)
    requires f.Valid() && |frame| == f.bytesPerFrame && j < n <= f.channels
    ensures 0 <= f.Width() * j && f.Width() * j + f.Width() <= f.Width() * n
    ensures Remapped(f, frame, n)[f.Width() * j..f.Width() * j + f.Width()] == Channel(f, frame, f.chanmap[j])
  {
    MulUpTo(f.Width(), j, n);
    LastChannel(f, frame, n);
    hide Remapped, Channel, Format.Width;
    if j < n - 1 {
      MulUpTo(f.Width(), j, n - 1);
      RemappedChannel(f, frame, n - 1, j);
      SliceOfFirst(Remapped(f, frame, n - 1), Channel(f, frame, f.chanmap[n - 1]), f.Width() * j, f.Width() * j + f.Width());
    }
  }

  lemma LastChannel(f: Format, frame: seq<Byte>, n: nat)
    requires f.Valid() && |frame| == f.bytesPerFrame && 0 < n <= f.channels
    ensures 0 <= f.Width() * (n - 1) && f.Width() * (n - 1) + f.Width() == f.Width() * n
    ensures Remapped(f, frame, n) == Remapped(f, frame, n - 1) + Channel(f, frame, f.chanmap[n - 1])
    ensures Remapped(f, frame, n)[f.Width() * (n - 1)..f.Width() * (n - 1) + f.Width()] == Channel(f, frame, f.chanmap[n - 1])
  {
    hide Channel;
    WidthTimes(f, n - 1);
  }

  lemma SliceOfFirst(a: seq<Byte>, b: seq<Byte>, i: nat, j: nat)
    requires i <= j <= |a|
    ensures (a + b)[i..j] == a[i..j]
  {
  }

  // n whole frames, each remapped.
  function RemapAll(f: Format, bytes: seq<Byte>, n: nat): (s: seq<Byte>)
    requires f.Valid() && |bytes| == n * f.bytesPerFrame
    ensures |s| == n * f.bytesPerFrame
  {
    if n == 0 then [] else
      WidthTimes(f, 0);
      FrameSize(f, n);
      RemapAll(f, bytes[..(n - 1) * f.bytesPerFrame], n - 1) +
        Remapped(f, bytes[(n - 1) * f.bytesPerFrame..], f.channels)
  }

  lemma FrameSize(f: Format, n: nat)
    requires n > 0
    ensures n * f.bytesPerFrame == (n - 1) * f.bytesPerFrame + f.bytesPerFrame
    ensures 0 <= (n - 1) * f.bytesPerFrame
  {
  }

  lemma {:induction false} RemapAllAppend(f: Format, a: seq<Byte>, m: nat, b: seq<Byte>, n: nat)
    requires f.Valid() && |a| == m * f.bytesPerFrame && |b| == n * f.bytesPerFrame
    ensures |a + b| == (m + n) * f.bytesPerFrame
    ensures RemapAll(f, a + b, m + n) == RemapAll(f, a, m) + RemapAll(f, b, n)
    decreases n
  {
    Distribute(m, n, f.bytesPerFrame);
    if n == 0 {
      assert a + b == a;
      assert RemapAll(f, a, m) + [] == RemapAll(f, a, m);
    } else {
      hide Remapped, RemapAll, Format.Valid;
      FrameSize(f, n);
      var k := (n - 1) * f.bytesPerFrame;
      RemapAllAppend(f, a, m, b[..k], n - 1);
      Distribute(m, n - 1, f.bytesPerFrame);
      LastFrame(f, b, n);
      LastFrame(f, a + b, m + n);
      CutBehind(a, b, k);
      Associate(RemapAll(f, a, m), RemapAll(f, b[..k], n - 1), Remapped(f, b[k..], f.channels));
    }
  }

  lemma LastFrame(f: Format, bytes: seq<Byte>, n: nat)
    requires f.Valid() && n > 0 && |bytes| == n * f.bytesPerFrame
    ensures var k := (n - 1) * f.bytesPerFrame;
      0 <= k <= |bytes| && |bytes| - k == f.bytesPerFrame &&
      RemapAll(f, bytes, n) == RemapAll(f, bytes[..k], n - 1) + Remapped(f, bytes[k..], f.channels)
  {
    hide Remapped, Format.Valid;
    FrameSize(f, n);
  }

  lemma CutBehind(a: seq<Byte>, b: seq<Byte>, k: nat)
    requires k <= |b|
    ensures (a + b)[..|a| + k] == a + b[..k] && (a + b)[|a| + k..] == b[k..]
  {
  }

  lemma Associate(a: seq<Byte>, b: seq<Byte>, c: seq<Byte>)
    ensures (a + b) + c == a + (b + c)
  {
  }

  lemma Distribute(m: nat, n: nat, k: nat)
    ensures (m + n) * k == m * k + n * k
  {
  }

  // Frame i of a remapped sequence is frame i of the source, remapped.
  lemma {:induction false} RemapAllFrame(f: Format, bytes: seq<Byte>, n: nat, i: nat)
    requires f.Valid() && |bytes| == n * f.bytesPerFrame && i < n
    ensures 0 <= i * f.bytesPerFrame && i * f.bytesPerFrame + f.bytesPerFrame <= |bytes|
    ensures var at := i * f.bytesPerFrame;
      RemapAll(f, bytes, n)[at..at + f.bytesPerFrame] ==
        Remapped(f, bytes[at..at + f.bytesPerFrame], f.channels)
  {
    hide Remapped, RemapAll, Format.Valid;
    MulUpTo(f.bytesPerFrame, i, n);
    LastFrame(f, bytes, n);
    var k, at := (n - 1) * f.bytesPerFrame, i * f.bytesPerFrame;
    var front, last := RemapAll(f, bytes[..k], n - 1), Remapped(f, bytes[k..], f.channels);
    if i < n - 1 {
      MulUpTo(f.bytesPerFrame, i, n - 1);
      RemapAllFrame(f, bytes[..k], n - 1, i);
      SliceOfFirst(front, last, at, at + f.bytesPerFrame);
      assert bytes[..k][at..at + f.bytesPerFrame] == bytes[at..at + f.bytesPerFrame];
    } else {
      assert (front + last)[k..k + f.bytesPerFrame] == last;
      assert bytes[k..] == bytes[k..k + f.bytesPerFrame];
    }
  }

  // ------------------------------------------------------- the chunks behind

  function Number(bytes: seq<Byte>): nat {
    if |bytes| == 0 then 0 else Number(bytes[..|bytes| - 1]) * 0x100 + bytes[|bytes| - 1]
  }

  // A chunk size: eight bytes, signed.
  function SizeAt(data: seq<Byte>, at: nat): int
    requires at + 8 <= |data|
  {
    var n := Number(data[at..at + 8]);
    if n < 0x8000_0000_0000_0000 then n else n - 0x1_0000_0000_0000_0000
  }

  function Min(x: int, y: int): int {
    if x < y then x else y
  }

  // A chunk header at at, or the end of the chunks.
  datatype Header = NoChunk(next: nat) | Chunk(isInfo: bool, size: int, body: nat)

  function HeaderAt(data: seq<Byte>, at: nat): (h: Header)
    requires at <= |data|
    ensures h.NoChunk? ==> at <= h.next <= |data| && (at < |data| ==> at < h.next)
    ensures h.Chunk? ==> at < h.body <= |data|
  {
    if |data| - at < 12 then NoChunk(|data|)
    else if data[at..at + 4] == [0, 0, 0, 0] then NoChunk(at + 12)
    else Chunk(data[at..at + 4] == INFO, SizeAt(data, at + 4), at + 12)
  }

  // The scan for tags that follows the last frame: where it ends, and the
  // calls of the callback.
  function Scan(data: seq<Byte>, at: nat): (r: (nat, seq<Tag>))
    requires at <= |data|
    ensures at <= r.0 <= |data| && (at < |data| ==> at < r.0)
    decreases |data| - at
  {
    match HeaderAt(data, at)
    case NoChunk(next) => (next, [])
    case Chunk(isInfo, size, body) =>
      if isInfo && size < 4 then (body, [])
      else if size < 0 then (body, [])
      else
        var end := Min(body + size, |data|);
        var rest := Scan(data, end);
        var info := Info(data[body..end]);
        if isInfo && info.Called? then (rest.0, info.tags + rest.1) else rest
  }

  // The scan meets no chunk that points backwards, and no tag chunk that is
  // cut off or makes the code read outside it.
  predicate Sound(data: seq<Byte>, at: nat)
    requires at <= |data|
    decreases |data| - at
  {
    match HeaderAt(data, at)
    case NoChunk(_) => true
    case Chunk(isInfo, size, body) =>
      if isInfo && size < 4 then true
      else
        size >= 0 &&
        (isInfo ==> body + size <= |data| && Info(data[body..body + size]).Called?) &&
        Sound(data, Min(body + size, |data|))
  }

  // -------------------------------------------------------------- the reader

  // A file whose frames start at offset, with the length the header gave.
  datatype Source = Source(data: seq<Byte>, offset: nat, length: nat, format: Format)
  {
    predicate Valid() {
      format.Valid() && offset <= |data|
    }

    // The frames there are.
    function Available(): nat
      requires Valid()
    {
      Min(length, (|data| - offset) / format.bytesPerFrame)
    }
  }

  datatype Reader = Reader(cursor: nat, position: nat, tags: seq<Tag>)

  ghost predicate Fits(src: Source, r: Reader) {
    src.Valid() && r.cursor <= |src.data| && r.position <= src.length
  }

  // How many bytes a request for n frames gets, and whole frames of them.
  function BytesRead(src: Source, r: Reader, n: nat): (got: nat)
    requires Fits(src, r)
    ensures got <= |src.data| - r.cursor
    ensures got <= Min(n, src.length - r.position) * src.format.bytesPerFrame
  {
    AtMost(0, Min(n, src.length - r.position), src.format.bytesPerFrame);
    Min(Min(n, src.length - r.position) * src.format.bytesPerFrame, |src.data| - r.cursor)
  }

  function FramesRead(src: Source, r: Reader, n: nat): (k: nat)
    requires Fits(src, r)
    ensures 0 <= k * src.format.bytesPerFrame <= BytesRead(src, r, n)
    ensures k <= n && k <= src.length - r.position
  {
    WholeIn(BytesRead(src, r, n), src.format.bytesPerFrame, Min(n, src.length - r.position))
  }

  function WholeIn(got: nat, bpf: nat, want: nat): (k: nat)
    requires bpf > 0 && got <= want * bpf
    ensures 0 <= k * bpf <= got && k <= want && k == got / bpf
  {
    var q, r := got / bpf, got % bpf;
    assert got == q * bpf + r;
    FewerFrames(q, r, bpf, want);
    AtMost(0, q, bpf);
    q
  }

  lemma FewerFrames(q: int, r: nat, bpf: nat, want: nat)
    requires bpf > 0 && q * bpf + r <= want * bpf
    ensures q <= want
  {
    if q - want >= 1 {
      MulAtLeast(q - want, bpf);
    }
  }

  // One call of caf_read_frames: the reader afterwards and the bytes stored.
  function ReadStep(src: Source, r: Reader, n: nat): (Reader, seq<Byte>)
    requires Fits(src, r)
  {
    var got, k, bpf := BytesRead(src, r, n), FramesRead(src, r, n), src.format.bytesPerFrame;
    var bytes := RemapAll(src.format, src.data[r.cursor..r.cursor + k * bpf], k);
    if k > 0 then (Reader(r.cursor + got, r.position + k, r.tags), bytes)
    else
      var end := Scan(src.data, r.cursor + got);
      (Reader(end.0, r.position, r.tags + end.1), bytes)
  }

  // --------------------------------------------------------------- the law

  // The frames [p, p + m) of the source, remapped.
  function Frames(src: Source, p: nat, m: nat): seq<Byte>
    requires src.Valid() && p + m <= src.Available()
  {
    var bpf := src.format.bytesPerFrame;
    FramesInside(src, p, m);
    RemapAll(src.format, src.data[src.offset + p * bpf..src.offset + p * bpf + m * bpf], m)
  }

  lemma FramesInside(src: Source, p: nat, m: nat)
    requires src.Valid() && p + m <= src.Available()
    ensures var bpf := src.format.bytesPerFrame;
      0 <= p * bpf && 0 <= m * bpf && src.offset + p * bpf + m * bpf <= |src.data|
  {
    var bpf, size := src.format.bytesPerFrame, |src.data| - src.offset;
    var q, r := QuotientRemainder(size, bpf);
    Quotient(size, bpf, q, r);
    Distribute(p, m, bpf);
    AtMost(p + m, q, bpf);
  }

  lemma AtMost(m: nat, n: nat, k: nat)
    requires m <= n
    ensures 0 <= m * k <= n * k
  {
    assert n * k == m * k + (n - m) * k;
    assert (n - m) * k >= 0;
  }

  // Frames are left and the cursor is on the next one, or none is left.
  ghost predicate OnTrack(src: Source, r: Reader) {
    Fits(src, r) && r.position <= src.Available() &&
    var bpf := src.format.bytesPerFrame;
    (r.position < src.Available() ==> r.cursor == src.offset + r.position * bpf) &&
    (r.position == src.Available() < src.length ==> |src.data| - r.cursor < bpf)
  }

  lemma StartsOnTrack(src: Source)
    requires src.Valid()
    ensures OnTrack(src, Reader(src.offset, 0, []))
  {
    var bpf, size := src.format.bytesPerFrame, |src.data| - src.offset;
    var q, r := QuotientRemainder(size, bpf);
    Quotient(size, bpf, q, r);
  }

  // The whole frames in want frames' worth of bytes, if q frames and r bytes
  // are left.
  lemma WholeFrames(bpf: nat, want: nat, q: nat, r: nat)
    requires bpf > 0 && r < bpf
    ensures 0 <= want * bpf && 0 <= q * bpf
    ensures var got := Min(want * bpf, q * bpf + r);
      got / bpf == Min(want, q) && got == if want <= q then want * bpf else q * bpf + r
  {
    if want <= q {
      AtMost(want, q, bpf);
      DivideExact(want, bpf);
    } else {
      AtMost(q + 1, want, bpf);
      Quotient(q * bpf + r, bpf, q, r);
    }
  }

  // What is left of size bytes behind p frames.
  lemma LeftBehind(bpf: nat, size: nat, p: nat)
    requires bpf > 0 && p <= size / bpf
    ensures 0 <= p * bpf <= size && size - p * bpf == (size / bpf - p) * bpf + size % bpf
  {
    var q, rest := QuotientRemainder(size, bpf);
    Quotient(size, bpf, q, rest);
    Distribute(p, q - p, bpf);
    AtMost(p, q, bpf);
  }

  // What a request gets while frames are left.
  lemma FramesGot(src: Source, r: Reader, n: nat)
    requires OnTrack(src, r) && r.position < src.Available()
    ensures var k := FramesRead(src, r, n);
      k == Min(n, src.Available() - r.position) &&
      if Min(n, src.length - r.position) == k then BytesRead(src, r, n) == k * src.format.bytesPerFrame
      else r.position + k == src.Available() && r.cursor + BytesRead(src, r, n) == |src.data|
  {
    var bpf, size, p := src.format.bytesPerFrame, |src.data| - src.offset, r.position;
    LeftBehind(bpf, size, p);
    WholeFrames(bpf, Min(n, src.length - p), size / bpf - p, size % bpf);
  }

  lemma StaysOnTrack(src: Source, r: Reader, n: nat)
    requires OnTrack(src, r) && r.position < src.Available() && n > 0
    ensures var k := FramesRead(src, r, n);
      k > 0 && OnTrack(src, Reader(r.cursor + BytesRead(src, r, n), r.position + k, r.tags))
  {
    var bpf, size, p, k := src.format.bytesPerFrame, |src.data| - src.offset, r.position, FramesRead(src, r, n);
    FramesGot(src, r, n);
    hide BytesRead, FramesRead;
    Distribute(p, k, bpf);
    LeftBehind(bpf, size, p + k);
  }

  // Only part of a frame, or nothing, is left.
  lemma NoneLeft(src: Source, r: Reader, n: nat)
    requires OnTrack(src, r) && r.position == src.Available()
    ensures FramesRead(src, r, n) == 0
  {
    var bpf := src.format.bytesPerFrame;
    var got := BytesRead(src, r, n);
    if src.length == r.position {
      assert got == 0;
    }
    Quotient(got, bpf, 0, got);
  }

  // One request: it delivers the next frames.
  lemma StepKeepsTrack(src: Source, r: Reader, n: nat)
    requires OnTrack(src, r) && (n > 0 || r.position == src.Available())
    ensures var (t, bytes) := ReadStep(src, r, n);
      var m := Min(n, src.Available() - r.position);
      OnTrack(src, t) && t.position == r.position + m && bytes == Frames(src, r.position, m)
  {
    if r.position < src.Available() {
      StepDelivers(src, r, n);
    } else {
      StepAtEnd(src, r, n);
    }
  }

  lemma StepDelivers(src: Source, r: Reader, n: nat)
    requires OnTrack(src, r) && n > 0 && r.position < src.Available()
    ensures var (t, bytes) := ReadStep(src, r, n);
      var m := Min(n, src.Available() - r.position);
      OnTrack(src, t) && t.position == r.position + m && bytes == Frames(src, r.position, m)
  {
    FramesGot(src, r, n);
    StaysOnTrack(src, r, n);
    hide Scan, RemapAll, BytesRead, FramesRead;
    FramesInside(src, r.position, FramesRead(src, r, n));
  }

  lemma StepAtEnd(src: Source, r: Reader, n: nat)
    requires OnTrack(src, r) && r.position == src.Available()
    ensures var (t, bytes) := ReadStep(src, r, n);
      OnTrack(src, t) && t.position == r.position && bytes == Frames(src, r.position, 0)
  {
    NoneLeft(src, r, n);
    hide Scan, BytesRead, FramesRead;
  }

  // A request for no frames while some are left makes the code look for
  // chunks in the middle of the frames.
  lemma ZeroRequestLosesTrack(src: Source, r: Reader)
    requires OnTrack(src, r) && r.position < src.Available()
    ensures !OnTrack(src, ReadStep(src, r, 0).0)
  {
    hide RemapAll;
    var bpf, size, p := src.format.bytesPerFrame, |src.data| - src.offset, r.position;
    LeftBehind(bpf, size, p);
    AtMost(1, size / bpf - p, bpf);
    assert BytesRead(src, r, 0) == 0;
  }

  // The condition for a request is exact.
  lemma KeepsTrackExactly(src: Source, r: Reader, n: nat)
    requires OnTrack(src, r)
    ensures OnTrack(src, ReadStep(src, r, n).0) <==> n > 0 || r.position == src.Available()
  {
    hide ReadStep, OnTrack;
    InRange(src, r);
    if n > 0 || r.position == src.Available() {
      StepKeepsTrack(src, r, n);
    } else {
      ZeroRequestLosesTrack(src, r);
    }
  }

  lemma InRange(src: Source, r: Reader)
    requires OnTrack(src, r)
    ensures src.Valid() && r.position <= src.Available()
  {
  }

  // A series of requests: the reader afterwards and all the bytes delivered.
  function Requests(src: Source, r: Reader, sizes: seq<nat>): (Reader, seq<Byte>)
    requires Fits(src, r)
    ensures Fits(src, Requests(src, r, sizes).0)
  {
    if |sizes| == 0 then (r, [])
    else
      var (t, front) := Requests(src, r, sizes[..|sizes| - 1]);
      var (u, bytes) := ReadStep(src, t, sizes[|sizes| - 1]);
      (u, front + bytes)
  }

  function Total(sizes: seq<nat>): nat {
    if |sizes| == 0 then 0 else Total(sizes[..|sizes| - 1]) + sizes[|sizes| - 1]
  }

  ghost predicate Positive(sizes: seq<nat>) {
    forall i :: 0 <= i < |sizes| ==> sizes[i] > 0
  }

  lemma FramesAppend(src: Source, m: nat, n: nat)
    requires src.Valid() && m + n <= src.Available()
    ensures Frames(src, 0, m + n) == Frames(src, 0, m) + Frames(src, m, n)
  {
    hide RemapAll;
    var bpf := src.format.bytesPerFrame;
    FramesInside(src, 0, m);
    FramesInside(src, m, n);
    FramesInside(src, 0, m + n);
    Distribute(m, n, bpf);
    var a, b := src.data[src.offset..src.offset + m * bpf], src.data[src.offset + m * bpf..src.offset + m * bpf + n * bpf];
    RemapAllAppend(src.format, a, m, b, n);
    assert a + b == src.data[src.offset..src.offset + (m + n) * bpf];
  }

  // However the requests are cut, they deliver the frames of the file in
  // order, each remapped, and position counts them.
  lemma {:induction false} RequestsDeliver(src: Source, sizes: seq<nat>)
    requires src.Valid() && Positive(sizes)
    ensures var (t, bytes) := Requests(src, Reader(src.offset, 0, []), sizes);
      var m := Min(Total(sizes), src.Available());
      OnTrack(src, t) && t.position == m <= src.length && bytes == Frames(src, 0, m)
  {
    hide ReadStep, OnTrack, Frames;
    var start := Reader(src.offset, 0, []);
    if |sizes| == 0 {
      StartsOnTrack(src);
      NoFrames(src);
    } else {
      var front, n := sizes[..|sizes| - 1], sizes[|sizes| - 1];
      RequestsDeliver(src, front);
      var t := Requests(src, start, front).0;
      StepKeepsTrack(src, t, n);
      FramesAppend(src, t.position, Min(n, src.Available() - t.position));
    }
  }

  lemma NoFrames(src: Source)
    requires src.Valid()
    ensures Frames(src, 0, 0) == []
  {
  }

  // So the way a program cuts its requests does not show.
  lemma ChunkingIrrelevant(src: Source, a: seq<nat>, b: seq<nat>)
    requires src.Valid() && Positive(a) && Positive(b) && Total(a) == Total(b)
    ensures var start := Reader(src.offset, 0, []);
      Requests(src, start, a).1 == Requests(src, start, b).1 &&
      Requests(src, start, a).0.position == Requests(src, start, b).0.position
  {
    hide Requests, Frames, OnTrack;
    RequestsDeliver(src, a);
    RequestsDeliver(src, b);
  }

  // A file of one frame that a request for no frames makes unreadable.
  lemma ZeroRequestMatters()
    ensures var src := Source([9], 0, 1, Format(1, 1, [0]));
      var start := Reader(0, 0, []);
      src.Valid() && Requests(src, start, [1]).1 == [9] && Requests(src, start, [0, 1]).1 == []
  {
    var src, start := Source([9], 0, 1, Format(1, 1, [0])), Reader(0, 0, []);
    OneFrame(src);
    assert [] + [1] == [1] && [] + [0] == [0] && [0] + [1] == [0, 1];
    hide ReadStep, Requests, Source.Valid;
    OneRequest(src, start, [], 1);
    OneRequest(src, start, [], 0);
    OneRequest(src, start, [0], 1);
  }

  lemma OneFrame(src: Source)
    requires src == Source([9], 0, 1, Format(1, 1, [0]))
    ensures ReadStep(src, Reader(0, 0, []), 1).1 == [9]
    ensures var (t, bytes) := ReadStep(src, Reader(0, 0, []), 0);
      bytes == [] && ReadStep(src, t, 1).1 == [] && Requests(src, Reader(0, 0, []), []).1 == []
  {
    assert src.data[0..1] == [9] && Remapped(src.format, [9], 1) == [9];
    assert [9][..0] == [] && [9][0..] == [9];
    assert RemapAll(src.format, [9], 1) == [9];
  }

  lemma OneRequest(src: Source, r: Reader, sizes: seq<nat>, n: nat)
    requires Fits(src, r)
    ensures var (t, front) := Requests(src, r, sizes);
      var (u, bytes) := ReadStep(src, t, n);
      Requests(src, r, sizes + [n]) == (u, front + bytes)
    ensures Requests(src, r, []) == (r, [])
  {
    assert (sizes + [n])[..|sizes|] == sizes;
  }
}
