// The frame reader of src-fdkaac/src/caf_reader.c (lines 127-168) over a file
// that is a sequence of bytes with a cursor.
module CafReader {
  import opened OptionTable
  import opened Arithmetic
  import opened CafInfo
  import opened CafStream

  const INT_MAX := 0x7fff_ffff

  // memcpy to another array, or within one.
  method Copy(to: array<Byte>, i: nat, from: array<Byte>, j: nat, n: nat)
    requires to != from && i + n <= to.Length && j + n <= from.Length
    modifies to
    ensures to[..] == old(to[..i]) + from[j..j + n] + old(to[i + n..])
  {
    forall k | 0 <= k < n {
      to[i + k] := from[j + k];
    }
    assert to[i..i + n] == from[j..j + n];
    assert to[..i] == old(to[..i]) && to[i + n..] == old(to[i + n..]);
    assert to[..] == to[..i] + to[i..i + n] + to[i + n..];
  }

  // ------------------------------------------------------ channel remapping

  // Bytes a, then a frame of which the first n samples are in place, then b.
  ghost predicate PartlyRemapped(bytes: seq<Byte>, a: seq<Byte>, f: Format, frame: seq<Byte>, n: nat, b: seq<Byte>)
    requires f.Valid() && |frame| == f.bytesPerFrame && n <= f.channels
  {
    f.Width() * n <= f.bytesPerFrame &&
    bytes == a + Remapped(f, frame, n) + frame[f.Width() * n..] + b
  }

  lemma OneChannel(bytes: seq<Byte>, a: seq<Byte>, f: Format, frame: seq<Byte>, n: nat, b: seq<Byte>)
    requires f.Valid() && |frame| == f.bytesPerFrame && n < f.channels
    requires PartlyRemapped(bytes, a, f, frame, n, b)
    ensures var w, i := f.Width(), |a| + f.Width() * n;
      0 <= i && i + w <= |bytes| &&
      PartlyRemapped(bytes[..i] + Channel(f, frame, f.chanmap[n]) + bytes[i + w..], a, f, frame, n + 1, b)
  {
    WidthTimes(f, n);
    var w, r := f.Width(), Remapped(f, frame, n);
    assert Remapped(f, frame, n + 1) == r + Channel(f, frame, f.chanmap[n]);
    hide Remapped, Channel, Format.Valid, Format.Width;
    Replace(bytes, a + r, frame[w * n..], b, Channel(f, frame, f.chanmap[n]));
    assert frame[w * n..][w..] == frame[w * (n + 1)..];
    Regroup(a, r, Channel(f, frame, f.chanmap[n]));
  }

  lemma Replace(bytes: seq<Byte>, a: seq<Byte>, m: seq<Byte>, b: seq<Byte>, c: seq<Byte>)
    requires bytes == a + m + b && |c| <= |m|
    ensures bytes[..|a|] + c + bytes[|a| + |c|..] == a + c + m[|c|..] + b
  {
  }

  lemma Regroup(a: seq<Byte>, b: seq<Byte>, c: seq<Byte>)
    ensures (a + b) + c == a + (b + c)
  {
  }

  lemma NoneRemapped(bytes: seq<Byte>, bp: nat, f: Format)
    requires f.Valid() && bp + f.bytesPerFrame <= |bytes|
    ensures PartlyRemapped(bytes, bytes[..bp], f, bytes[bp..bp + f.bytesPerFrame], 0, bytes[bp + f.bytesPerFrame..])
  {
    var a, frame, b := bytes[..bp], bytes[bp..bp + f.bytesPerFrame], bytes[bp + f.bytesPerFrame..];
    assert f.Width() * 0 == 0 && a + [] + frame[0..] + b == bytes;
  }

  lemma WholeRemapped(bytes: seq<Byte>, a: seq<Byte>, f: Format, frame: seq<Byte>, b: seq<Byte>)
    requires f.Valid() && |frame| == f.bytesPerFrame && PartlyRemapped(bytes, a, f, frame, f.channels, b)
    ensures bytes == a + Remapped(f, frame, f.channels) + b
  {
    WidthTimes(f, 0);
    assert frame[f.Width() * f.channels..] == [];
    assert a + Remapped(f, frame, f.channels) + [] == a + Remapped(f, frame, f.channels);
  }

  lemma ChannelSlice(f: Format, frame: seq<Byte>, c: nat, at: nat, w: nat)
    requires f.Valid() && |frame| == f.bytesPerFrame && c < f.channels && w == f.Width() && at == w * c
    ensures at + w <= |frame| && frame[at..at + w] == Channel(f, frame, c)
  {
    WidthTimes(f, c);
  }

  lemma SliceTwice(t: seq<Byte>, n: nat, i: nat, j: nat)
    requires i <= j <= n <= |t|
    ensures t[..n][i..j] == t[i..j]
  {
  }

  method CopyChannel(buffer: array<Byte>, i: nat, tmp: array<Byte>, f: Format, ghost frame: seq<Byte>, c: nat)
    requires buffer != tmp && f.Valid() && |frame| == f.bytesPerFrame && c < f.channels
    requires i + f.Width() <= buffer.Length && f.bytesPerFrame <= tmp.Length && tmp[..f.bytesPerFrame] == frame
    modifies buffer
    ensures buffer[..] == old(buffer[..])[..i] + Channel(f, frame, c) + old(buffer[..])[i + f.Width()..]
  {
    WidthTimes(f, c);
    var w, at := f.Width(), f.Width() * c;
    ChannelSlice(f, frame, c, at, w);
    SliceTwice(tmp[..], f.bytesPerFrame, at, at + w);
    assert tmp[..][..f.bytesPerFrame] == frame && tmp[..][at..at + w] == tmp[at..at + w];
    ghost var was := buffer[..];
    Copy(buffer, i, tmp, at, w);
    assert was[..i] == old(buffer[..i]) && was[i + f.Width()..] == old(buffer[i + f.Width()..]);
  }

  // Line 150.
  method RemapChannel(buffer: array<Byte>, bp: nat, tmp: array<Byte>, f: Format, j: nat,
                      ghost a: seq<Byte>, ghost frame: seq<Byte>, ghost b: seq<Byte>)
    requires f.Valid() && |frame| == f.bytesPerFrame && j < f.channels && |a| == bp && buffer != tmp
    requires f.bytesPerFrame <= tmp.Length && tmp[..f.bytesPerFrame] == frame
    requires PartlyRemapped(buffer[..], a, f, frame, j, b)
    modifies buffer
    ensures PartlyRemapped(buffer[..], a, f, frame, j + 1, b)
  {
    hide PartlyRemapped, Channel, Remapped;
    OneChannel(buffer[..], a, f, frame, j, b);
    CopyChannel(buffer, bp + f.Width() * j, tmp, f, frame, f.chanmap[j]);
  }

  // Line 148.
  method SaveFrame(buffer: array<Byte>, bp: nat, bpf: nat) returns (tmp: array<Byte>)
    requires bpf <= 64 && bp + bpf <= buffer.Length
    ensures fresh(tmp) && tmp.Length == 64 && tmp[..bpf] == buffer[..][bp..bp + bpf]
  {
    tmp := new Byte[64];
    Copy(tmp, 0, buffer, bp, bpf);
    assert buffer[..][bp..bp + bpf] == buffer[bp..bp + bpf];
  }

  // Lines 148-150.
  method RemapFrame(buffer: array<Byte>, bp: nat, f: Format)
    requires f.Valid() && bp + f.bytesPerFrame <= buffer.Length
    modifies buffer
    ensures var was := old(buffer[..]);
      buffer[..] == was[..bp] + Remapped(f, was[bp..bp + f.bytesPerFrame], f.channels) + was[bp + f.bytesPerFrame..]
  {
    ghost var was := buffer[..];
    ghost var a, frame, b := was[..bp], was[bp..bp + f.bytesPerFrame], was[bp + f.bytesPerFrame..];
    NoneRemapped(was, bp, f);
    hide PartlyRemapped, Channel, Remapped;
    var tmp := SaveFrame(buffer, bp, f.bytesPerFrame);
    var j := 0;
    while j < f.channels
      invariant 0 <= j <= f.channels
      invariant tmp[..f.bytesPerFrame] == frame
      invariant PartlyRemapped(buffer[..], a, f, frame, j, b)
    {
      RemapChannel(buffer, bp, tmp, f, j, a, frame, b);
      j := j + 1;
    }
    WholeRemapped(buffer[..], a, f, frame, b);
  }

  lemma OneFrameMore(was: seq<Byte>, bytes: seq<Byte>, f: Format, i: nat)
    requires f.Valid() && 0 <= i * f.bytesPerFrame && (i + 1) * f.bytesPerFrame <= |was|
    requires bytes == RemapAll(f, was[..i * f.bytesPerFrame], i) + was[i * f.bytesPerFrame..]
    ensures var k, bpf := i * f.bytesPerFrame, f.bytesPerFrame;
      k + bpf == (i + 1) * bpf <= |bytes| == |was| &&
      bytes[..k] + Remapped(f, bytes[k..k + bpf], f.channels) + bytes[k + bpf..] ==
        RemapAll(f, was[..(i + 1) * bpf], i + 1) + was[(i + 1) * bpf..]
  {
    hide Remapped, RemapAll, Format.Valid;
    var k, bpf := i * f.bytesPerFrame, f.bytesPerFrame;
    Distribute(i, 1, bpf);
    LastFrame(f, was[..k + bpf], i + 1);
    assert was[..k + bpf][..k] == was[..k] && was[..k + bpf][k..] == was[k..k + bpf];
    Behind(RemapAll(f, was[..k], i), was, k, bpf);
  }

  lemma Behind(r: seq<Byte>, was: seq<Byte>, k: nat, n: nat)
    requires |r| == k && k + n <= |was|
    ensures var bytes := r + was[k..];
      bytes[..k] == r && bytes[k..k + n] == was[k..k + n] && bytes[k + n..] == was[k + n..]
  {
  }

  // The first i frames are in place, which end at bp.
  ghost predicate RemappedUpTo(bytes: seq<Byte>, was: seq<Byte>, f: Format, i: nat, bp: nat) {
    f.Valid() && bp == i * f.bytesPerFrame <= |was| && bytes == RemapAll(f, was[..bp], i) + was[bp..]
  }

  method RemapNext(buffer: array<Byte>, bp: nat, f: Format, i: nat, ghost n: nat, ghost was: seq<Byte>)
    requires i < n && n * f.bytesPerFrame <= |was| && RemappedUpTo(buffer[..], was, f, i, bp)
    modifies buffer
    ensures RemappedUpTo(buffer[..], was, f, i + 1, bp + f.bytesPerFrame)
  {
    AtMost(i + 1, n, f.bytesPerFrame);
    hide Remapped, RemapAll, Format.Valid;
    OneFrameMore(was, buffer[..], f, i);
    RemapFrame(buffer, bp, f);
  }

  // Lines 147-151: the loop over the frames read.
  method RemapFrames(buffer: array<Byte>, f: Format, n: nat)
    requires f.Valid() && n * f.bytesPerFrame <= buffer.Length
    modifies buffer
    ensures 0 <= n * f.bytesPerFrame <= |old(buffer[..])|
    ensures RemappedUpTo(buffer[..], old(buffer[..]), f, n, n * f.bytesPerFrame)
  {
    ghost var was := buffer[..];
    var i: nat, bp: nat := 0, 0;
    NothingRemapped(was, f);
    hide RemappedUpTo, RemapAll, Format.Valid;
    while i < n
      invariant 0 <= i <= n
      invariant RemappedUpTo(buffer[..], was, f, i, bp)
    {
      RemapNext(buffer, bp, f, i, n, was);
      i, bp := i + 1, bp + f.bytesPerFrame;
    }
    AllRemapped(buffer[..], was, f, n, bp);
  }

  lemma NothingRemapped(was: seq<Byte>, f: Format)
    requires f.Valid()
    ensures RemappedUpTo(was, was, f, 0, 0)
  {
    assert RemapAll(f, was[..0], 0) + was[0..] == was;
  }

  lemma AllRemapped(bytes: seq<Byte>, was: seq<Byte>, f: Format, n: nat, bp: nat)
    requires RemappedUpTo(bytes, was, f, n, bp)
    ensures bp == n * f.bytesPerFrame && 0 <= bp <= |was|
  {
  }

  class FrameReader {
    const src: Source
    const burst: nat        // the most bytes the file hands over in one go
    var cursor: nat
    var position: nat
    var tags: seq<Tag>      // the calls of the tag callback so far

    constructor (src: Source, burst: nat)
      requires src.Valid() && burst > 0
      ensures Valid() && this.src == src && Now() == Reader(src.offset, 0, [])
    {
      this.src, this.burst := src, burst;
      cursor, position, tags := src.offset, 0, [];
    }

    ghost predicate Valid()
      reads this
    {
      burst > 0 && Fits(src, Now())
    }

    ghost function Now(): Reader
      reads this
    {
      Reader(cursor, position, tags)
    }

    // The read callback: some bytes, unless the file ends here.
    method Read(buffer: array<Byte>, at: nat, size: nat) returns (rc: nat)
      requires Valid() && at + size <= buffer.Length
      modifies this`cursor, buffer
      ensures Valid() && rc <= size && cursor == old(cursor) + rc
      ensures rc == 0 <==> size == 0 || old(cursor) == |src.data|
      ensures Spliced(buffer[..], old(buffer[..]), at, src.data[old(cursor)..cursor])
    {
      rc := Min(Min(size, burst), |src.data| - cursor);
      ghost var was := buffer[..];
      forall i | 0 <= i < rc {
        buffer[at + i] := src.data[cursor + i];
      }
      cursor := cursor + rc;
      assert buffer[..] == was[..at] + src.data[cursor - rc..cursor] + was[at + rc..];
    }

    // pcm_read: src-fdkaac/src/pcm_readhelper.c, lines 39-53.
    method PcmRead(buffer: array<Byte>, size: nat) returns (count: nat)
      requires Valid() && size <= buffer.Length
      modifies this`cursor, buffer
      ensures Valid() && count == Min(size, |src.data| - old(cursor)) && cursor == old(cursor) + count
      ensures Filled(buffer[..], src.data, old(cursor), count, old(buffer[..]))
    {
      hide Source.Valid, Filled, Spliced;
      ghost var was, start := buffer[..], cursor;
      count := 0;
      FilledNone(src.data, start, was);
      var more := true;
      while more
        invariant Valid() && count <= size && cursor == start + count
        invariant !more ==> count == size || cursor == |src.data|
        invariant Filled(buffer[..], src.data, start, count, was)
        decreases more, |src.data| - cursor
      {
        ghost var before, c := buffer[..], cursor;
        var rc := Read(buffer, count, size - count);
        FilledMore(buffer[..], before, src.data, start, count, c, cursor, was);
        count := count + rc;
        more := rc > 0 && count < size;
      }
    }

    // caf_next_chunk: the header at the cursor.
    method NextChunk() returns (h: Header)
      requires Valid()
      modifies this`cursor
      ensures h == HeaderAt(src.data, old(cursor)) && Valid()
      ensures cursor == if h.NoChunk? then h.next else h.body
    {
      var data := src.data;
      if |data| - cursor < 12 {
        cursor := |data|;
        return NoChunk(cursor);
      }
      var fcc, size := data[cursor..cursor + 4], SizeAt(data, cursor + 4);
      cursor := cursor + 12;
      h := if fcc == [0, 0, 0, 0] then NoChunk(cursor) else Chunk(fcc == INFO, size, cursor);
    }

    // Lines 158-163: the tags behind the frames.
    method ScanChunks()
      requires Valid() && Sound(src.data, cursor)
      modifies this`cursor, this`tags
      ensures Valid() && (cursor, tags) == (Scan(src.data, old(cursor)).0, old(tags) + Scan(src.data, old(cursor)).1)
    {
      hide HeaderAt, Info;
      ghost var end := Scan(src.data, cursor);
      ghost var was := tags;
      var more := true;
      assert was + [] == was && [] + end.1 == end.1;
      while more
        invariant Valid()
        invariant if more then
            Sound(src.data, cursor) && Scan(src.data, cursor).0 == end.0 && tags + Scan(src.data, cursor).1 == was + end.1
          else cursor == end.0 && tags == was + end.1
        decreases more, |src.data| - cursor
      {
        more := OneChunk();
      }
    }

    method OneChunk() returns (more: bool)
      requires Valid() && Sound(src.data, cursor)
      modifies this`cursor, this`tags
      ensures Valid() && (more ==> cursor > old(cursor))
      ensures var was := Scan(src.data, old(cursor));
        if more then
          Sound(src.data, cursor) && Scan(src.data, cursor).0 == was.0 &&
          tags + Scan(src.data, cursor).1 == old(tags) + was.1
        else cursor == was.0 && tags == old(tags) + was.1
    {
      hide HeaderAt, Info;
      ghost var start := cursor;
      var h := NextChunk();
      assert tags + [] == tags;
      match h
      case NoChunk(_) =>
        more := false;
      case Chunk(isInfo, size, body) =>
        if isInfo && size < 4 {
          return false;
        }
        cursor := Min(body + size, |src.data|);
        if isInfo {
          var info := ReadInfo(src.data[body..cursor]);
          tags := tags + info.tags;
          assert (old(tags) + info.tags) + Scan(src.data, cursor).1 == old(tags) + (info.tags + Scan(src.data, cursor).1);
        }
        more := true;
    }

    // Lines 143-153.
    method ReadSome(buffer: array<Byte>, nframes: nat) returns (rc: nat)
      requires Valid() && 0 < nframes <= src.length - position
      requires nframes * src.format.bytesPerFrame <= Min(buffer.Length, INT_MAX)
      modifies this`cursor, this`position, buffer
      ensures Valid() && rc == FramesRead(src, old(Now()), nframes)
      ensures Now() == Reader(old(cursor) + BytesRead(src, old(Now()), nframes), old(position) + rc, old(tags))
      ensures 0 <= rc * src.format.bytesPerFrame <= buffer.Length
      ensures 0 <= old(cursor) + rc * src.format.bytesPerFrame <= |src.data|
      ensures buffer[..rc * src.format.bytesPerFrame] ==
              RemapAll(src.format, src.data[old(cursor)..old(cursor) + rc * src.format.bytesPerFrame], rc)
    {
      hide RemapAll, Source.Available;
      ghost var r, was := Now(), buffer[..];
      var got := PcmRead(buffer, nframes * src.format.bytesPerFrame);
      assert got == BytesRead(src, r, nframes);
      rc := WholeIn(got, src.format.bytesPerFrame, nframes);
      hide BytesRead;
      FirstBytes(src.data, r.cursor, cursor, was, rc * src.format.bytesPerFrame);
      RemapFrames(buffer, src.format, rc);
      position := position + rc;
    }

    // caf_read_frames.
    method ReadFrames(buffer: array<Byte>, nframes: nat) returns (rc: nat)
      requires Valid()
      requires Min(nframes, src.length - position) * src.format.bytesPerFrame <= Min(buffer.Length, INT_MAX)
      requires FramesRead(src, Now(), nframes) == 0 ==> Sound(src.data, cursor + BytesRead(src, Now(), nframes))
      modifies this`cursor, this`position, this`tags, buffer
      ensures Valid() && Now() == ReadStep(src, old(Now()), nframes).0
      ensures rc == FramesRead(src, old(Now()), nframes)
      ensures 0 <= rc * src.format.bytesPerFrame <= buffer.Length
      ensures buffer[..rc * src.format.bytesPerFrame] == ReadStep(src, old(Now()), nframes).1
    {
      hide RemapAll, Scan, Sound;
      ghost var r := Now();
      rc := Min(nframes, src.length - position);
      LessAsked(src, r, nframes);
      if rc * src.format.bytesPerFrame > 0 {
        rc := ReadSome(buffer, rc);
      }
      if rc == 0 {
        ScanChunks();
        NoBytes(src.format, src.data[r.cursor..r.cursor]);
      }
    }
  }

  // A request beyond the end is one up to the end.
  lemma LessAsked(src: Source, r: Reader, n: nat)
    requires Fits(src, r)
    ensures var m := Min(n, src.length - r.position);
      BytesRead(src, r, n) == BytesRead(src, r, m) && FramesRead(src, r, n) == FramesRead(src, r, m) &&
      (m == 0 ==> BytesRead(src, r, n) == 0 && FramesRead(src, r, n) == 0) &&
      (m > 0 <==> m * src.format.bytesPerFrame > 0)
  {
    var m := Min(n, src.length - r.position);
    if m > 0 {
      AtMost(1, m, src.format.bytesPerFrame);
    }
  }

  lemma NoBytes(f: Format, none: seq<Byte>)
    requires f.Valid() && none == []
    ensures 0 * f.bytesPerFrame == 0 && RemapAll(f, none, 0) == []
  {
  }

  lemma FirstBytes(data: seq<Byte>, i: nat, j: nat, was: seq<Byte>, n: nat)
    requires i <= j <= |data| && n <= j - i <= |was|
    ensures (data[i..j] + was[j - i..])[..n] == data[i..i + n]
  {
  }

  // piece replaces as many elements of before, from at on.
  ghost predicate Spliced(bytes: seq<Byte>, before: seq<Byte>, at: nat, piece: seq<Byte>) {
    at + |piece| <= |before| && bytes == before[..at] + piece + before[at + |piece|..]
  }

  // The first n bytes come from data, from i on; the rest is as it was.
  ghost predicate Filled(bytes: seq<Byte>, data: seq<Byte>, i: nat, n: nat, was: seq<Byte>) {
    i + n <= |data| && n <= |was| && bytes == data[i..i + n] + was[n..]
  }

  lemma FilledMore(bytes: seq<Byte>, before: seq<Byte>, data: seq<Byte>, i: nat, n: nat, c: nat, k: nat, was: seq<Byte>)
    requires Filled(before, data, i, n, was) && c == i + n && c <= k <= |data|
    requires Spliced(bytes, before, n, data[c..k])
    ensures Filled(bytes, data, i, n + (k - c), was)
  {
  }

  lemma FilledNone(data: seq<Byte>, i: nat, was: seq<Byte>)
    requires i <= |data|
    ensures Filled(was, data, i, 0, was)
  {
  }
}
