// A receiver for one X-PAD with a dynamic label, and the proof that it reads
// what the builder lays out.
module DabReceiver {
  import opened Crc16
  import opened DabLabel

  datatype Part = Part(toggle: bool, first: bool, last: bool, number: nat, text: seq<Byte>)
  datatype Message = Message(toggle: bool, text: seq<Byte>)

  // What a stream holds: its message, in how many sub-fields, and the bytes
  // it takes up.
  datatype Contents = Contents(message: Message, subfields: nat, used: nat)

  // ------------------------------------------------------------ the receiver
  //
  // It decodes the bits itself and uses none of the functions that build them.

  function TextLength(prefix: Byte): (n: nat) {
    ((prefix & 0x0F) as nat) + 1
  }

  // The high half of the second byte: the number of the segment, or the
  // charset of the first.
  function HighHalf(prefix: Byte): (n: nat) {
    (prefix >> 4) as nat
  }

  function Word16(high: Byte, low: Byte): Word {
    ((high as Word) << 8) | (low as Word)
  }

  // One data group at the start of a sub-field, if its CRC is right.
  function ReadGroup(field: seq<Byte>): Option<Part> {
    if |field| < 2 then None else
      var n := TextLength(field[0]);
      if |field| < n + 4 || Word16(field[n + 2], field[n + 3]) != Crc(field[..n + 2]) || field[1] & 0x0F != 0 then None
      else Some(Part(field[0] & 0x80 != 0, field[0] & 0x40 != 0, field[0] & 0x20 != 0, HighHalf(field[1]), field[2..n + 2]))
  }

  // The length of a sub-field by the three top bits of its indicator.
  function GridLength(ci: Byte): (n: nat)
    ensures n > 0
  {
    var li := ci >> 5;
    if li == 0 then 4 else if li == 1 then 6 else if li == 2 then 8 else if li == 3 then 12
    else if li == 4 then 16 else if li == 5 then 24 else if li == 6 then 32 else 48
  }

  // The contents indicators from position k on, up to the end marker or the
  // fourth: the lengths they announce and where the sub-fields start.
  function ReadIndicators(r: seq<Byte>, k: nat): Option<(seq<nat>, nat)>
    requires k <= 4
    decreases 4 - k
  {
    if k == 4 then Some(([], k))
    else if k >= |r| then None
    else if r[k] == 0 then Some(([], k + 1))
    else if r[k] & 0x1F != 2 then None
    else
      match ReadIndicators(r, k + 1)
      case None => None
      case Some((lengths, start)) => Some(([GridLength(r[k])] + lengths, start))
  }

  // The sub-fields from the s-th on: one label, the first and the last part
  // marked, the others numbered, the charset 0, all with one toggle.
  function ReadFields(r: seq<Byte>, lengths: seq<nat>, s: nat, toggle: bool): Option<seq<Byte>>
    decreases |lengths|
  {
    if |lengths| == 0 then Some([])
    else if lengths[0] > |r| then None
    else
      match ReadGroup(r[..lengths[0]])
      case None => None
      case Some(p) =>
        if p.toggle != toggle || p.first != (s == 0) || p.last != (|lengths| == 1) || p.number != s then None else
          match ReadFields(r[lengths[0]..], lengths[1..], s + 1, toggle)
          case None => None
          case Some(rest) => Some(p.text + rest)
  }

  function Sum(lengths: seq<nat>): nat {
    if |lengths| == 0 then 0 else lengths[0] + Sum(lengths[1..])
  }

  // The stream of an X-PAD: contents indicators, then sub-fields.
  function ReadStream(r: seq<Byte>): Option<Contents> {
    match ReadIndicators(r, 0)
    case None => None
    case Some((lengths, start)) =>
      if |lengths| == 0 || start >= |r| then None else
        var toggle := r[start] & 0x80 != 0;
        match ReadFields(r[start..], lengths, 0, toggle)
        case None => None
        case Some(text) => Some(Contents(Message(toggle, text), |lengths|, start + Sum(lengths)))
  }

  // What stands in front of the F-PAD, read backwards.
  function Backwards(buffer: seq<Byte>): (r: seq<Byte>)
    requires |buffer| >= 3
    ensures |r| == |buffer| - 3
  {
    seq(|buffer| - 3, i requires 0 <= i < |buffer| - 3 => buffer[|buffer| - 4 - i])
  }

  // The buffer: the F-PAD says that there is a variable size X-PAD with
  // contents indicators.  The last byte counts the X-PAD and the F-PAD, with
  // an end marker that four sub-fields do not have.
  function Receive(buffer: seq<Byte>): Option<Message> {
    var n := |buffer|;
    if n < 3 || buffer[n - 3] != 0x20 || buffer[n - 2] != 0x02 then None else
      match ReadStream(Backwards(buffer))
      case None => None
      case Some(c) =>
        var used := c.used + (if c.subfields == 4 then 3 else 2);
        if used >= 256 || buffer[n - 1] != OneByte(used) then None else Some(c.message)
  }

  function OneByte(n: nat): Byte
    requires n < 256
  {
    n as Byte
  }

  // ---------------------------------------------------------------- one group

  lemma LengthNibble(n: nat)
    requires 1 <= n <= 16
    ensures ((n - 1) as Byte) & 0xF0 == 0 && (((n - 1) as Byte) & 0x0F) as nat == n - 1
  {
    if n == 1 {} else if n == 2 {} else if n == 3 {} else if n == 4 {}
    else if n == 5 {} else if n == 6 {} else if n == 7 {} else if n == 8 {}
    else if n == 9 {} else if n == 10 {} else if n == 11 {} else if n == 12 {}
    else if n == 13 {} else if n == 14 {} else if n == 15 {} else {}
  }

  lemma FlagBits(t: Byte, f: Byte, l: Byte, x: Byte)
    requires (t == 0 || t == 0x80) && (f == 0 || f == 0x40) && (l == 0 || l == 0x20) && x & 0xF0 == 0
    ensures var p := t | f | l | x;
      (p & 0x80 != 0) == (t != 0) && (p & 0x40 != 0) == (f != 0) && (p & 0x20 != 0) == (l != 0) &&
      p & 0x0F == x & 0x0F
  {
  }

  lemma PrefixRead(n: nat, first: bool, last: bool, toggle: bool)
    requires 1 <= n <= 16
    ensures var p := Prefix0(n, first, last, toggle);
      TextLength(p) == n && (p & 0x80 != 0) == toggle && (p & 0x40 != 0) == first && (p & 0x20 != 0) == last
  {
    LengthNibble(n);
    FlagBits(if toggle then 0x80 else 0, if first then 0x40 else 0, if last then 0x20 else 0, (n - 1) as Byte);
  }

  lemma NumberRead(first: bool, s: nat)
    requires s < MAX_CIS
    ensures var p := Prefix1(first, s); p & 0x0F == 0 && HighHalf(p) == if first then 0 else s
  {
    if first || s == 0 {} else if s == 1 {} else if s == 2 {} else {}
  }

  lemma CrcRead(c: Word)
    ensures Word16(CrcBytes(c)[0], CrcBytes(c)[1]) == c
  {
  }

  lemma GroupRead(text: seq<Byte>, first: bool, last: bool, s: nat, toggle: bool, pad: seq<Byte>)
    requires 1 <= |text| <= 16 && s < MAX_CIS
    ensures ReadGroup(DataGroup(text, first, last, s, toggle) + pad) ==
            Some(Part(toggle, first, last, if first then 0 else s, text))
  {
    var n := |text|;
    var data := [Prefix0(n, first, last, toggle), Prefix1(first, s)] + text;
    PrefixRead(n, first, last, toggle);
    NumberRead(first, s);
    CrcRead(Crc(data));
    hide Crc, CrcBytes, Prefix0, Prefix1, TextLength, HighHalf, Word16;
    FieldParts(Prefix0(n, first, last, toggle), Prefix1(first, s), text, CrcBytes(Crc(data)), pad);
  }

  lemma FieldParts(p: Byte, q: Byte, text: seq<Byte>, crc: seq<Byte>, pad: seq<Byte>)
    requires |crc| == 2
    ensures var field := ([p, q] + text + crc) + pad;
      var n := |text|;
      |field| >= n + 4 && field[0] == p && field[1] == q && field[..n + 2] == [p, q] + text &&
      field[n + 2] == crc[0] && field[n + 3] == crc[1] && field[2..n + 2] == text
  {
  }

  lemma IndicatorRead(li: nat)
    requires li < 8
    ensures Indicator(li) != 0 && Indicator(li) & 0x1F == 2 && GridLength(Indicator(li)) == FieldLength(li)
  {
    if li == 0 {} else if li == 1 {} else if li == 2 {} else if li == 3 {}
    else if li == 4 {} else if li == 5 {} else if li == 6 {} else {}
  }

  // ----------------------------------------------------------- the whole field

  // What the receiver should find from the s-th sub-field on.
  function LengthsFrom(labelText: seq<Byte>, s: nat): (l: seq<nat>)
    requires s <= SegmentCount(labelText)
    ensures |l| == SegmentCount(labelText) - s
    decreases SegmentCount(labelText) - s
  {
    if s == SegmentCount(labelText) then []
    else [FieldLength(LengthIndex(labelText, s))] + LengthsFrom(labelText, s + 1)
  }

  function FieldsFrom(labelText: seq<Byte>, toggle: bool, s: nat): seq<Byte>
    requires s <= SegmentCount(labelText) <= MAX_CIS
    decreases SegmentCount(labelText) - s
  {
    if s == SegmentCount(labelText) then [] else Field(labelText, toggle, s) + FieldsFrom(labelText, toggle, s + 1)
  }

  lemma FieldsStep(labelText: seq<Byte>, toggle: bool, s: nat)
    requires s < SegmentCount(labelText) <= MAX_CIS
    ensures Fields(labelText, toggle, s + 1) == Fields(labelText, toggle, s) + Field(labelText, toggle, s)
    ensures FieldsFrom(labelText, toggle, s) == Field(labelText, toggle, s) + FieldsFrom(labelText, toggle, s + 1)
    ensures LengthsFrom(labelText, s) ==
            [FieldLength(LengthIndex(labelText, s))] + LengthsFrom(labelText, s + 1)
  {
    hide Field, SegmentCount, LengthIndex, FieldLength;
  }

  lemma NoFieldsLeft(labelText: seq<Byte>, toggle: bool)
    requires SegmentCount(labelText) <= MAX_CIS
    ensures FieldsFrom(labelText, toggle, SegmentCount(labelText)) == []
    ensures LengthsFrom(labelText, SegmentCount(labelText)) == []
    ensures TextFrom(labelText, SegmentCount(labelText)) == []
  {
    hide SegmentCount;
  }

  lemma {:induction false} FieldsSplit(labelText: seq<Byte>, toggle: bool, s: nat)
    requires s <= SegmentCount(labelText) <= MAX_CIS
    ensures Fields(labelText, toggle, SegmentCount(labelText)) ==
            Fields(labelText, toggle, s) + FieldsFrom(labelText, toggle, s)
    decreases SegmentCount(labelText) - s
  {
    hide *;
    if s < SegmentCount(labelText) {
      FieldsSplit(labelText, toggle, s + 1);
      FieldsStep(labelText, toggle, s);
      Regroup(Fields(labelText, toggle, s), Field(labelText, toggle, s), FieldsFrom(labelText, toggle, s + 1));
    } else {
      NoFieldsLeft(labelText, toggle);
      Regroup(Fields(labelText, toggle, s), [], []);
    }
  }

  lemma Regroup(a: seq<Byte>, b: seq<Byte>, c: seq<Byte>)
    ensures (a + b) + c == a + (b + c) && a + [] == a
  {
  }

  lemma OneIndicatorRead(r: seq<Byte>, k: nat, li: nat, lengths: seq<nat>, start: nat)
    requires k < 4 && k < |r| && li < 8 && r[k] == Indicator(li)
    requires ReadIndicators(r, k + 1) == Some((lengths, start))
    ensures ReadIndicators(r, k) == Some(([FieldLength(li)] + lengths, start))
  {
    IndicatorRead(li);
    hide Indicator, GridLength, FieldLength;
  }

  lemma NoMoreIndicators(r: seq<Byte>, k: nat)
    requires k == 4 || (k < 4 && k < |r| && r[k] == 0)
    ensures ReadIndicators(r, k) == Some(([], if k == 4 then 4 else k + 1))
  {
  }

  lemma {:induction false} IndicatorsRead(labelText: seq<Byte>, k: nat, rest: seq<Byte>)
    requires k <= SegmentCount(labelText) <= MAX_CIS
    ensures var n := SegmentCount(labelText);
      ReadIndicators(Indicators(labelText, n) + EndMarker(n) + rest, k) ==
        Some((LengthsFrom(labelText, k), n + |EndMarker(n)|))
    decreases SegmentCount(labelText) - k
  {
    var n := SegmentCount(labelText);
    var r := Indicators(labelText, n) + EndMarker(n) + rest;
    hide SegmentCount, Indicator, GridLength, LengthIndex, Indicators, FieldLength, ReadIndicators;
    if k < n {
      IndicatorAt(labelText, n, k);
      assert r[k] == Indicator(LengthIndex(labelText, k));
      IndicatorsRead(labelText, k + 1, rest);
      OneIndicatorRead(r, k, LengthIndex(labelText, k), LengthsFrom(labelText, k + 1), n + |EndMarker(n)|);
    } else {
      assert n < MAX_CIS ==> r[n] == 0;
      NoMoreIndicators(r, n);
    }
  }

  lemma FieldRead(labelText: seq<Byte>, toggle: bool, s: nat)
    requires s < SegmentCount(labelText) <= MAX_CIS
    ensures ReadGroup(Field(labelText, toggle, s)) ==
            Some(Part(toggle, s == 0, s == SegmentCount(labelText) - 1, s, Segment(labelText, s)))
  {
    hide Segment, SegmentCount, LengthIndex, ReadGroup, DataGroup;
    GroupRead(Segment(labelText, s), s == 0, s == SegmentCount(labelText) - 1, s, toggle,
              NoBytes(FieldLength(LengthIndex(labelText, s)) - |Group(labelText, toggle, s)|));
  }

  lemma {:induction false} FieldsRead(labelText: seq<Byte>, toggle: bool, s: nat, rest: seq<Byte>)
    requires s <= SegmentCount(labelText) <= MAX_CIS
    ensures ReadFields(FieldsFrom(labelText, toggle, s) + rest, LengthsFrom(labelText, s), s, toggle) ==
            Some(TextFrom(labelText, s))
    decreases SegmentCount(labelText) - s
  {
    hide *;
    if s < SegmentCount(labelText) {
      var f, more := Field(labelText, toggle, s), FieldsFrom(labelText, toggle, s + 1);
      FieldsRead(labelText, toggle, s + 1, rest);
      FieldRead(labelText, toggle, s);
      TextSplit(labelText, s);
      FieldsStep(labelText, toggle, s);
      Regroup(f, more, rest);
      OneFieldRead(f, more + rest, FieldLength(LengthIndex(labelText, s)), LengthsFrom(labelText, s + 1), s, toggle,
                   Segment(labelText, s), TextFrom(labelText, s + 1));
    } else {
      NoFieldsLeft(labelText, toggle);
      NothingRead(rest, s, toggle);
    }
  }

  lemma NothingRead(r: seq<Byte>, s: nat, toggle: bool)
    ensures ReadFields([] + r, [], s, toggle) == Some([])
  {
  }

  lemma OneFieldRead(f: seq<Byte>, more: seq<Byte>, n: nat, lengths: seq<nat>, s: nat, toggle: bool,
                     text: seq<Byte>, rest: seq<Byte>)
    requires |f| == n && ReadGroup(f) == Some(Part(toggle, s == 0, |lengths| == 0, s, text))
    requires ReadFields(more, lengths, s + 1, toggle) == Some(rest)
    ensures ReadFields(f + more, [n] + lengths, s, toggle) == Some(text + rest)
  {
    hide ReadGroup;
    var r, l := f + more, [n] + lengths;
    assert r[..n] == f && r[n..] == more && l[1..] == lengths;
  }

  function TextFrom(labelText: seq<Byte>, s: nat): seq<Byte>
    requires s <= SegmentCount(labelText)
  {
    if s == SegmentCount(labelText) then [] else Text(labelText)[SEGMENT_MAX * s..]
  }

  lemma TextSplit(labelText: seq<Byte>, s: nat)
    requires s < SegmentCount(labelText)
    ensures TextFrom(labelText, s) == Segment(labelText, s) + TextFrom(labelText, s + 1)
  {
  }

  // --------------------------------------------------------------- round trip

  // The lengths announced are those of the sub-fields.
  lemma {:induction false} LengthsAddUp(labelText: seq<Byte>, toggle: bool, s: nat)
    requires s <= SegmentCount(labelText) <= MAX_CIS
    ensures Sum(LengthsFrom(labelText, s)) == |FieldsFrom(labelText, toggle, s)|
    decreases SegmentCount(labelText) - s
  {
    hide SegmentCount, LengthIndex, Field, FieldLength;
    if s < SegmentCount(labelText) {
      LengthsAddUp(labelText, toggle, s + 1);
      assert LengthsFrom(labelText, s)[1..] == LengthsFrom(labelText, s + 1);
    }
  }

  lemma StreamRead(labelText: seq<Byte>, toggle: bool, rest: seq<Byte>)
    requires SegmentCount(labelText) <= MAX_CIS
    ensures ReadStream(Stream(labelText, toggle) + rest) ==
            Some(Contents(Message(toggle, Text(labelText)), SegmentCount(labelText), |Stream(labelText, toggle)|))
  {
    hide *;
    var n := SegmentCount(labelText);
    var head, fields := Indicators(labelText, n) + EndMarker(n), Fields(labelText, toggle, n);
    FieldsRead(labelText, toggle, 0, rest);
    IndicatorsRead(labelText, 0, fields + rest);
    FirstByte(labelText, toggle);
    WholeText(labelText);
    FieldsFromStart(labelText, toggle);
    LengthsAddUp(labelText, toggle, 0);
    Regroup(head, fields, rest);
    PartsRead(head, fields, rest, LengthsFrom(labelText, 0), toggle, Text(labelText));
  }

  lemma FieldsFromStart(labelText: seq<Byte>, toggle: bool)
    requires SegmentCount(labelText) <= MAX_CIS
    ensures FieldsFrom(labelText, toggle, 0) == Fields(labelText, toggle, SegmentCount(labelText))
    ensures var n := SegmentCount(labelText);
      Stream(labelText, toggle) == (Indicators(labelText, n) + EndMarker(n)) + Fields(labelText, toggle, n)
  {
    hide Field, SegmentCount, FieldsFrom, Indicators, EndMarker;
    FieldsSplit(labelText, toggle, 0);
    assert Fields(labelText, toggle, 0) == [];
    Prepend(FieldsFrom(labelText, toggle, 0));
  }

  lemma Prepend(a: seq<Byte>)
    ensures [] + a == a
  {
  }

  lemma PartsRead(head: seq<Byte>, fields: seq<Byte>, rest: seq<Byte>, lengths: seq<nat>, toggle: bool, text: seq<Byte>)
    requires 1 <= |lengths| && |fields| > 0 && (fields[0] & 0x80 != 0) == toggle
    requires ReadIndicators(head + (fields + rest), 0) == Some((lengths, |head|))
    requires ReadFields(fields + rest, lengths, 0, toggle) == Some(text)
    ensures ReadStream(head + (fields + rest)) == Some(Contents(Message(toggle, text), |lengths|, |head| + Sum(lengths)))
  {
    hide ReadFields, ReadIndicators, Sum;
    var r := head + (fields + rest);
    assert r[|head|..] == fields + rest;
    assert r[|head|] == fields[0];
  }

  lemma WholeText(labelText: seq<Byte>)
    ensures TextFrom(labelText, 0) == Text(labelText)
  {
  }

  // The first sub-field starts with the toggle bit.
  lemma FirstByte(labelText: seq<Byte>, toggle: bool)
    requires SegmentCount(labelText) <= MAX_CIS
    ensures var f := Fields(labelText, toggle, SegmentCount(labelText));
      |f| > 0 && (f[0] & 0x80 != 0) == toggle
  {
    FieldsSplit(labelText, toggle, 0);
    FieldsStep(labelText, toggle, 0);
    FieldRead(labelText, toggle, 0);
    hide Field, FieldsFrom, SegmentCount, LengthIndex, Segment;
    assert Fields(labelText, toggle, 0) == [];
    var f := Field(labelText, toggle, 0);
    assert |f| >= 2 && (f[0] & 0x80 != 0) == toggle;
    assert Fields(labelText, toggle, SegmentCount(labelText)) == f + FieldsFrom(labelText, toggle, 1);
  }

  // Every label that fits is received with its toggle bit; the empty one as a
  // terminator.
  lemma LabelReceived(labelText: seq<Byte>, toggle: bool, padSize: nat)
    requires Fits(labelText, padSize)
    ensures Receive(Layout(labelText, toggle, padSize)) == Some(Message(toggle, if labelText == [] then [0] else labelText))
  {
    hide ReadStream, Stream, Frame, Receive, Reserved, SegmentCount;
    StreamLength(labelText, toggle);
    var s := Stream(labelText, toggle);
    StreamRead(labelText, toggle, NoBytes(padSize - 2 - |s|));
    FrameRead(s, padSize, (Reserved(labelText) + 2) as Byte);
    assert OneByte(Reserved(labelText) + 2) == (Reserved(labelText) + 2) as Byte;
  }

  lemma FrameRead(s: seq<Byte>, padSize: nat, used: Byte)
    requires |s| <= padSize - 2
    ensures Receive(Frame(s, padSize, used)) ==
      match ReadStream(s + NoBytes(padSize - 2 - |s|))
      case None => None
      case Some(c) =>
        var u := c.used + (if c.subfields == 4 then 3 else 2);
        if u >= 256 || used != OneByte(u) then None else Some(c.message)
  {
    FrameEnd(s, padSize, used);
    BackwardsFrame(s, padSize, used);
    hide ReadStream, Frame, Backwards, OneByte;
  }

  lemma FrameEnd(s: seq<Byte>, padSize: nat, used: Byte)
    requires |s| <= padSize - 2
    ensures var b := Frame(s, padSize, used);
      |b| == padSize + 1 && b[padSize - 2] == 0x20 && b[padSize - 1] == 0x02 && b[padSize] == used
  {
  }

  lemma BackwardsFrame(s: seq<Byte>, padSize: nat, used: Byte)
    requires |s| <= padSize - 2
    ensures |Frame(s, padSize, used)| == padSize + 1
    ensures Backwards(Frame(s, padSize, used)) == s + NoBytes(padSize - 2 - |s|)
  {
    var z, b := NoBytes(padSize - 2 - |s|), Frame(s, padSize, used);
    forall i | 0 <= i < padSize - 2 ensures Backwards(b)[i] == (s + z)[i] {
      if i < |s| {
        assert b[padSize - 3 - i] == Reverse(s)[|s| - 1 - i];
      }
    }
  }

  // ------------------------------------------------ what a receiver skips

  // The smallest sub-field that holds n bytes.
  function SmallestLength(n: nat): (r: nat) {
    if n <= 4 then 4 else if n <= 6 then 6 else if n <= 8 then 8 else if n <= 12 then 12
    else if n <= 16 then 16 else if n <= 24 then 24 else if n <= 32 then 32 else 48
  }

  lemma FieldIsSmallest(n: nat)
    ensures FieldLength(FieldIndex(n, 0)) == SmallestLength(n)
  {
  }

  // A segment carries the text from 16 s on, up to 16 bytes of it.
  lemma SegmentText(labelText: seq<Byte>, s: nat)
    requires 0 < |labelText|
    ensures SegmentCount(labelText) == (|labelText| + 15) / 16
    ensures 16 * s < |labelText| ==>
      s < SegmentCount(labelText) &&
      Segment(labelText, s) == labelText[16 * s..if 16 * s + 16 <= |labelText| then 16 * s + 16 else |labelText|]
  {
  }

  // When a label fits: with n segments, the last of which has k bytes.
  lemma FitsExactly(labelText: seq<Byte>, padSize: int)
    ensures var n := if |labelText| == 0 then 1 else (|labelText| + 15) / 16;
      var k := if |labelText| == 0 then 1 else |labelText| - 16 * (n - 1);
      Fits(labelText, padSize) <==> n <= 4 && (n + 1) + 24 * (n - 1) + SmallestLength(k + 4) <= padSize - 2
  {
    FieldIsSmallest(|Segment(labelText, SegmentCount(labelText) - 1)| + 4);
    hide FieldLength, FieldIndex, SmallestLength;
  }

  // The bytes that carry nothing: zeros behind each data group and in front
  // of the X-PAD.
  lemma UnusedAreZero(labelText: seq<Byte>, toggle: bool, padSize: nat)
    requires Fits(labelText, padSize)
    ensures |Layout(labelText, toggle, padSize)| == padSize + 1
    ensures |Stream(labelText, toggle)| <= padSize - 2
    ensures forall i :: 0 <= i < padSize - 2 - |Stream(labelText, toggle)| ==> Layout(labelText, toggle, padSize)[i] == 0
    ensures forall s, i ::
      0 <= s < SegmentCount(labelText) && |Segment(labelText, s)| + 4 <= i < |Field(labelText, toggle, s)| ==>
      Field(labelText, toggle, s)[i] == 0
  {
    StreamLength(labelText, toggle);
    ZerosInFront(Stream(labelText, toggle), padSize, (Reserved(labelText) + 2) as Byte);
    hide Stream, Reserved, Frame;
  }

  lemma ZerosInFront(s: seq<Byte>, padSize: nat, used: Byte)
    requires |s| <= padSize - 2
    ensures |Frame(s, padSize, used)| == padSize + 1
    ensures forall i :: 0 <= i < padSize - 2 - |s| ==> Frame(s, padSize, used)[i] == 0
  {
  }

  // Labels are C strings: a terminator can only come from the empty one.
  ghost predicate IsCString(labelText: seq<Byte>) {
    forall c :: c in labelText ==> c != 0
  }

  // No two labels, and no two toggle bits, give the same buffer.
  lemma LayoutInjective(a: seq<Byte>, b: seq<Byte>, s: bool, t: bool, padSize: nat)
    requires Fits(a, padSize) && Fits(b, padSize) && IsCString(a) && IsCString(b)
    requires Layout(a, s, padSize) == Layout(b, t, padSize)
    ensures a == b && s == t
  {
    hide Layout, Fits, Receive;
    LabelReceived(a, s, padSize);
    LabelReceived(b, t, padSize);
    TextInjective(a, b);
  }

  lemma TextInjective(a: seq<Byte>, b: seq<Byte>)
    requires IsCString(a) && IsCString(b) && Text(a) == Text(b)
    ensures a == b
  {
    if |a| > 0 {
      assert a[0] in a;
    }
    if |b| > 0 {
      assert b[0] in b;
    }
  }
}
