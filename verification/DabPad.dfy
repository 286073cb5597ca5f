// The builder of src-fdkaac/src/dab_pad.c.
module DabPad {
  import opened Crc16
  import opened DabLabel

  // The charset of the first segment is 0, EBU Latin, at the only call.
  method DlsSegment(out: array<Byte>, text: seq<Byte>, firstSeg: bool, lastSeg: bool, segIndex: nat, toggle: bool)
    returns (n: nat)
    requires 1 <= |text| <= SEGMENT_MAX && segIndex < MAX_CIS && out.Length >= 2 + SEGMENT_MAX + 2
    modifies out
    ensures n == |text| + 4 && out[..n] == DataGroup(text, firstSeg, lastSeg, segIndex, toggle)
  {
    hide Crc, Prefix0, Prefix1, CrcBytes;
    out[0] := Prefix0(|text|, firstSeg, lastSeg, toggle);
    out[1] := Prefix1(firstSeg, segIndex);
    forall i | 0 <= i < |text| {
      out[2 + i] := text[i];
    }
    n := 2 + |text|;
    ghost var data := [Prefix0(|text|, firstSeg, lastSeg, toggle), Prefix1(firstSeg, segIndex)] + text;
    assert out[..n] == data;
    var crc := PadCrc16(out[..n]);
    var bytes := CrcBytes(crc);
    out[n] := bytes[0];
    out[n + 1] := bytes[1];
    n := n + 2;
    assert out[..n] == data + bytes;
  }

  // Lines 110-112: a data group, zero-padded to the length of its sub-field.
  method StoreField(subfields: array<Byte>, at: nat, dg: seq<Byte>, length: nat)
    requires |dg| <= length && at + length <= subfields.Length
    modifies subfields
    ensures subfields[..at + length] == old(subfields[..at]) + (dg + NoBytes(length - |dg|))
  {
    forall i | 0 <= i < |dg| {
      subfields[at + i] := dg[i];
    }
    forall i | |dg| <= i < length {
      subfields[at + i] := 0;
    }
  }

  // The space reserved before segment s.
  function ReservedBefore(s: nat): nat {
    if s == 0 then 0 else s + 1 + 24 * s
  }

  // Lines 99-119 for one segment: false when it does not fit.
  method AddSegment(subfields: array<Byte>, ciLenIndex: array<nat>, labelText: seq<Byte>, toggle: bool, xpadMax: int,
                    s: nat, subfieldsSize: nat, xpadSize: nat)
    returns (ok: bool, newSubfieldsSize: nat, newXpadSize: nat)
    requires s < SegmentCount(labelText) <= MAX_CIS && subfields.Length == 192 && ciLenIndex.Length == MAX_CIS
    requires subfieldsSize == 24 * s && xpadSize == ReservedBefore(s)
    requires subfields[..subfieldsSize] == Fields(labelText, toggle, s)
    modifies subfields, ciLenIndex
    ensures ok <==> xpadSize + (if s == 0 then 2 else 1) + FieldLength(LengthIndex(labelText, s)) <= xpadMax
    ensures ok ==>
      newSubfieldsSize == subfieldsSize + FieldLength(LengthIndex(labelText, s)) <= 192 &&
      newXpadSize == xpadSize + (if s == 0 then 2 else 1) + FieldLength(LengthIndex(labelText, s)) &&
      subfields[..newSubfieldsSize] == Fields(labelText, toggle, s + 1) &&
      ciLenIndex[s] == LengthIndex(labelText, s)
    ensures forall j :: 0 <= j < s ==> ciLenIndex[j] == old(ciLenIndex[j])
  {
    hide Segment, SegmentCount, DataGroup, FieldIndex, FieldLength;
    var dg := new Byte[2 + 16 + 2];
    var dgLen := DlsSegment(dg, Segment(labelText, s), s == 0, s == SegmentCount(labelText) - 1, s, toggle);
    ghost var g := Group(labelText, toggle, s);
    assert dg[..dgLen] == g;
    var li := SmallestField(dgLen);
    assert li == LengthIndex(labelText, s);
    newSubfieldsSize, newXpadSize := subfieldsSize, xpadSize;
    // never taken: the longest data group has 20 bytes
    if FieldLength(li) < dgLen {
      return false, newSubfieldsSize, newXpadSize;
    }
    var need := if s == 0 then 2 else 1;
    if s == MAX_CIS - 1 {
      need := 1;
    }
    if xpadSize + need + FieldLength(li) > xpadMax {
      return false, newSubfieldsSize, newXpadSize;
    }
    StoreField(subfields, subfieldsSize, dg[..dgLen], FieldLength(li));
    newSubfieldsSize := subfieldsSize + FieldLength(li);
    ciLenIndex[s] := li;
    newXpadSize := xpadSize + need + FieldLength(li);
    ok := true;
  }

  // Lines 100-101.
  method SmallestField(dgLen: nat) returns (li: nat)
    ensures li == FieldIndex(dgLen, 0)
  {
    li := 0;
    while li + 1 < 8 && FieldLength(li) < dgLen
      invariant li < 8 && FieldIndex(dgLen, li) == FieldIndex(dgLen, 0)
      decreases 8 - li
    {
      li := li + 1;
    }
  }

  lemma ReservedSum(labelText: seq<Byte>, s: nat)
    requires s < SegmentCount(labelText) <= MAX_CIS
    ensures ReservedBefore(s) + (if s == 0 then 2 else 1) + FieldLength(LengthIndex(labelText, s)) ==
            if s == SegmentCount(labelText) - 1 then Reserved(labelText) else ReservedBefore(s + 1)
    ensures ReservedBefore(s) + (if s == 0 then 2 else 1) + FieldLength(LengthIndex(labelText, s)) <= Reserved(labelText)
  {
  }

  method BuildDls(out: array<Byte>, padSize: int, labelText: seq<Byte>, toggle: bool) returns (r: int)
    requires padSize + 1 <= out.Length
    modifies out
    ensures r == if Fits(labelText, padSize) then padSize + 1 else 0
    ensures Fits(labelText, padSize) ==>
      out[..padSize + 1] == Layout(labelText, toggle, padSize) && out[padSize + 1..] == old(out[padSize + 1..])
    ensures !Fits(labelText, padSize) ==> out[..] == old(out[..])
  {
    hide LengthIndex, Layout;
    var xpadMax := padSize - 2;
    var textLen := |labelText|;
    var segCount := textLen / SEGMENT_MAX + (if textLen % SEGMENT_MAX != 0 then 1 else 0);
    if segCount == 0 {
      segCount := 1;
    }
    assert segCount == SegmentCount(labelText);
    if segCount > MAX_CIS {
      return 0;
    }
    hide SegmentCount;
    var ok, subfields, ciLenIndex, xpadSize := BuildSegments(labelText, toggle, xpadMax, segCount);
    if !ok {
      return 0;
    }
    LayOut(out, padSize, labelText, toggle, subfields, ciLenIndex, segCount, xpadSize);
    r := padSize + 1;
  }

  // Lines 88-119.
  method BuildSegments(labelText: seq<Byte>, toggle: bool, xpadMax: int, segCount: nat)
    returns (ok: bool, fields: seq<Byte>, ciLenIndex: array<nat>, xpadSize: nat)
    requires segCount == SegmentCount(labelText) <= MAX_CIS
    ensures ok <==> Reserved(labelText) <= xpadMax
    ensures fresh(ciLenIndex) && ciLenIndex.Length == MAX_CIS
    ensures ok ==> fields == Fields(labelText, toggle, segCount) && xpadSize == Reserved(labelText)
    ensures ok ==> forall j :: 0 <= j < segCount ==> ciLenIndex[j] == LengthIndex(labelText, j)
  {
    hide LengthIndex, Field, Fields, SegmentCount, Reserved;
    var subfields := new Byte[192];
    ciLenIndex := new nat[MAX_CIS];
    fields := [];
    NoFields(labelText, toggle);
    var subfieldsSize := 0;
    xpadSize := 0;
    var s := 0;
    while s < segCount
      invariant 0 <= s <= segCount
      invariant xpadSize == if s == segCount then Reserved(labelText) else ReservedBefore(s)
      invariant s < segCount ==> subfieldsSize == 24 * s
      invariant 0 <= subfieldsSize <= 192 && subfields[..subfieldsSize] == Fields(labelText, toggle, s)
      invariant forall j :: 0 <= j < s ==> ciLenIndex[j] == LengthIndex(labelText, j)
      invariant s == segCount ==> xpadSize <= xpadMax
      modifies subfields, ciLenIndex
    {
      ReservedSum(labelText, s);
      ok, subfieldsSize, xpadSize := AddSegment(subfields, ciLenIndex, labelText, toggle, xpadMax, s, subfieldsSize, xpadSize);
      if !ok {
        return;
      }
      s := s + 1;
    }
    ok := true;
    fields := subfields[..subfieldsSize];
  }

  lemma NoFields(labelText: seq<Byte>, toggle: bool)
    requires SegmentCount(labelText) <= MAX_CIS
    ensures Fields(labelText, toggle, 0) == []
  {
  }

  // One write out[--pad_offset] = x.
  method Put(out: array<Byte>, padOffset: nat, x: Byte, xpadMax: nat, ghost stream: seq<Byte>, ghost k: nat)
    returns (next: nat)
    requires Written(out[..], xpadMax, stream, k) && k < |stream| && stream[k] == x && padOffset == xpadMax - k
    modifies out
    ensures next == padOffset - 1 && Written(out[..], xpadMax, stream, k + 1)
    ensures forall j :: xpadMax <= j < out.Length ==> out[j] == old(out[j])
  {
    next := padOffset - 1;
    ghost var b := out[..];
    out[next] := x;
    forall j | 0 <= j < k + 1
      ensures out[xpadMax - 1 - j] == stream[j]
    {
      if j < k {
        assert b[xpadMax - 1 - j] == stream[j];
      }
    }
  }

  // Lines 121-131.
  method WriteStream(out: array<Byte>, padSize: nat, labelText: seq<Byte>, toggle: bool, subfields: seq<Byte>,
                     ciLenIndex: array<nat>, usedCis: nat)
    requires padSize + 1 <= out.Length && Fits(labelText, padSize)
    requires usedCis == SegmentCount(labelText) && subfields == Fields(labelText, toggle, usedCis)
    requires ciLenIndex.Length == MAX_CIS
    requires forall j :: 0 <= j < usedCis ==> ciLenIndex[j] == LengthIndex(labelText, j)
    modifies out
    ensures var stream := Stream(labelText, toggle); Written(out[..], padSize - 2, stream, |stream|)
    ensures forall j :: padSize + 1 <= j < out.Length ==> out[j] == old(out[j])
  {
    hide Stream, LengthIndex, Indicator, SegmentCount, Reserved, Fields;
    ghost var stream := Stream(labelText, toggle);
    StreamLength(labelText, toggle);
    StreamParts(labelText, toggle);
    var xpadMax := padSize - 2;
    forall i | 0 <= i < padSize + 1 {
      out[i] := 0;
    }
    var padOffset := xpadMax;
    var i := 0;
    while i < usedCis
      invariant 0 <= i <= usedCis && padOffset == xpadMax - i
      invariant Written(out[..], xpadMax, stream, i)
      invariant forall j :: padSize + 1 <= j < out.Length ==> out[j] == old(out[j])
    {
      padOffset := Put(out, padOffset, Indicator(ciLenIndex[i]), xpadMax, stream, i);
      i := i + 1;
    }
    if usedCis < MAX_CIS {
      padOffset := Put(out, padOffset, 0, xpadMax, stream, i);
    }
    ghost var head := usedCis + |EndMarker(usedCis)|;
    i := 0;
    while i < |subfields|
      invariant 0 <= i <= |subfields| && padOffset == xpadMax - head - i
      invariant Written(out[..], xpadMax, stream, head + i)
      invariant forall j :: padSize + 1 <= j < out.Length ==> out[j] == old(out[j])
    {
      padOffset := Put(out, padOffset, subfields[i], xpadMax, stream, head + i);
      i := i + 1;
    }
  }

  // Lines 121-137.
  method LayOut(out: array<Byte>, padSize: nat, labelText: seq<Byte>, toggle: bool, subfields: seq<Byte>,
                ciLenIndex: array<nat>, usedCis: nat, xpadSize: nat)
    requires padSize + 1 <= out.Length && Fits(labelText, padSize) && xpadSize == Reserved(labelText)
    requires usedCis == SegmentCount(labelText) && subfields == Fields(labelText, toggle, usedCis)
    requires ciLenIndex.Length == MAX_CIS
    requires forall j :: 0 <= j < usedCis ==> ciLenIndex[j] == LengthIndex(labelText, j)
    modifies out
    ensures out[..padSize + 1] == Layout(labelText, toggle, padSize)
    ensures out[padSize + 1..] == old(out[padSize + 1..])
  {
    hide Stream, LengthIndex, SegmentCount, Reserved, Fields, Frame;
    StreamLength(labelText, toggle);
    ghost var tail := out[padSize + 1..];
    WriteStream(out, padSize, labelText, toggle, subfields, ciLenIndex, usedCis);
    var xpadMax := padSize - 2;
    out[xpadMax] := 0x20;
    out[xpadMax + 1] := if usedCis > 0 then 0x02 else 0x00;
    out[padSize] := (xpadSize + 2) as Byte;
    AllWritten(out[..], Stream(labelText, toggle), padSize, (xpadSize + 2) as Byte);
    assert out[padSize + 1..] == tail;
  }

  // The first k bytes of the stream stand in front of xpadMax, backwards,
  // with zeros in front of them.
  ghost predicate Written(b: seq<Byte>, xpadMax: nat, stream: seq<Byte>, k: nat) {
    k <= |stream| <= xpadMax <= |b| &&
    (forall j :: 0 <= j < k ==> b[xpadMax - 1 - j] == stream[j]) &&
    (forall j :: 0 <= j < xpadMax - k ==> b[j] == 0)
  }

  lemma AllWritten(b: seq<Byte>, stream: seq<Byte>, padSize: nat, used: Byte)
    requires 2 <= padSize < |b| && Written(b, padSize - 2, stream, |stream|)
    requires b[padSize - 2] == 0x20 && b[padSize - 1] == 0x02 && b[padSize] == used
    ensures b[..padSize + 1] == Frame(stream, padSize, used)
  {
    var f, n := Frame(stream, padSize, used), padSize - 2 - |stream|;
    forall i | 0 <= i < padSize + 1
      ensures b[i] == f[i]
    {
      if n <= i < padSize - 2 {
        assert f[i] == Reverse(stream)[i - n] == stream[padSize - 3 - i];
        assert b[padSize - 2 - 1 - (padSize - 3 - i)] == stream[padSize - 3 - i];
      }
    }
  }

  lemma StreamParts(labelText: seq<Byte>, toggle: bool)
    requires SegmentCount(labelText) <= MAX_CIS
    ensures var n := SegmentCount(labelText);
      var stream, fields, head := Stream(labelText, toggle), Fields(labelText, toggle, n), n + |EndMarker(n)|;
      |stream| == head + |fields| &&
      (forall j :: 0 <= j < n ==> stream[j] == Indicator(LengthIndex(labelText, j))) &&
      (n < MAX_CIS ==> stream[n] == 0) &&
      (forall j :: 0 <= j < |fields| ==> stream[head + j] == fields[j])
  {
    hide SegmentCount, LengthIndex, Indicator, Fields;
    var n := SegmentCount(labelText);
    forall j | 0 <= j < n
      ensures Stream(labelText, toggle)[j] == Indicator(LengthIndex(labelText, j))
    {
      IndicatorAt(labelText, n, j);
    }
  }
}
