// The dynamic label of section 7.4.5.2 of ETSI EN 300 401 in a variable size
// X-PAD: what src-fdkaac/src/dab_pad.c lays out, and a receiver that reads it.
module DabLabel {
  import opened Crc16

  datatype Option<+T> = None | Some(value: T)

  const SEGMENT_MAX := 16
  const MAX_CIS := 4
  const FIELD_LENGTHS: seq<nat> := [4, 6, 8, 12, 16, 24, 32, 48]

  function FieldLength(li: nat): nat
    requires li < 8
  {
    FIELD_LENGTHS[li]
  }

  // The smallest sub-field for a data group of n bytes.
  function FieldIndex(n: nat, li: nat): (r: nat)
    requires li < 8
    ensures li <= r < 8
    decreases 8 - li
  {
    if li + 1 < 8 && FieldLength(li) < n then FieldIndex(n, li + 1) else li
  }

  function NoBytes(n: nat): (z: seq<Byte>)
    ensures |z| == n
  {
    seq(n, _ => 0)
  }

  // ------------------------------------------------------------- the segments

  // The bytes that are sent: a C string, its terminator when it is empty.
  function Text(labelText: seq<Byte>): (t: seq<Byte>)
    ensures |t| > 0
  {
    if |labelText| == 0 then [0] else labelText
  }

  function SegmentCount(labelText: seq<Byte>): (n: nat)
    ensures n > 0 && SEGMENT_MAX * (n - 1) < |Text(labelText)| <= SEGMENT_MAX * n
  {
    (|Text(labelText)| + SEGMENT_MAX - 1) / SEGMENT_MAX
  }

  function Segment(labelText: seq<Byte>, s: nat): (t: seq<Byte>)
    requires s < SegmentCount(labelText)
    ensures 1 <= |t| <= SEGMENT_MAX
    ensures s < SegmentCount(labelText) - 1 ==> |t| == SEGMENT_MAX
  {
    var text := Text(labelText);
    var end := SEGMENT_MAX * (s + 1);
    text[SEGMENT_MAX * s..if end <= |text| then end else |text|]
  }

  function Prefix0(n: nat, first: bool, last: bool, toggle: bool): Byte
    requires 1 <= n <= 16
  {
    (if toggle then 0x80 else 0) | (if first then 0x40 else 0) | (if last then 0x20 else 0) | ((n - 1) as Byte)
  }

  // The charset of a first segment is 0.
  function Prefix1(first: bool, s: nat): Byte
    requires s < MAX_CIS
  {
    (if first then 0 else s as Byte) << 4
  }

  function Checked(data: seq<Byte>): seq<Byte> {
    data + CrcBytes(Crc(data))
  }

  function DataGroup(text: seq<Byte>, first: bool, last: bool, s: nat, toggle: bool): (g: seq<Byte>)
    requires 1 <= |text| <= 16 && s < MAX_CIS
    ensures |g| == |text| + 4
  {
    Checked([Prefix0(|text|, first, last, toggle), Prefix1(first, s)] + text)
  }

  function Group(labelText: seq<Byte>, toggle: bool, s: nat): (g: seq<Byte>)
    requires s < SegmentCount(labelText) <= MAX_CIS
    ensures |g| == |Segment(labelText, s)| + 4
  {
    DataGroup(Segment(labelText, s), s == 0, s == SegmentCount(labelText) - 1, s, toggle)
  }

  function LengthIndex(labelText: seq<Byte>, s: nat): (li: nat)
    requires s < SegmentCount(labelText)
    ensures li < 8 && |Segment(labelText, s)| + 4 <= FieldLength(li) <= 24
    ensures s < SegmentCount(labelText) - 1 ==> FieldLength(li) == 24
  {
    FieldIndex(|Segment(labelText, s)| + 4, 0)
  }

  // The data group with zeros up to the length of its sub-field.
  function Field(labelText: seq<Byte>, toggle: bool, s: nat): (f: seq<Byte>)
    requires s < SegmentCount(labelText) <= MAX_CIS
    ensures |f| == FieldLength(LengthIndex(labelText, s))
  {
    var g := Group(labelText, toggle, s);
    g + NoBytes(FieldLength(LengthIndex(labelText, s)) - |g|)
  }

  // The first s sub-fields.
  function Fields(labelText: seq<Byte>, toggle: bool, s: nat): (f: seq<Byte>)
    requires s <= SegmentCount(labelText) <= MAX_CIS
  {
    if s == 0 then [] else Fields(labelText, toggle, s - 1) + Field(labelText, toggle, s - 1)
  }

  // A contents indicator: application type 2, the start of a dynamic label.
  function Indicator(li: nat): Byte
    requires li < 8
  {
    ((li as Byte) << 5) | 2
  }

  function Indicators(labelText: seq<Byte>, s: nat): (c: seq<Byte>)
    requires s <= SegmentCount(labelText)
    ensures |c| == s
  {
    if s == 0 then [] else Indicators(labelText, s - 1) + [Indicator(LengthIndex(labelText, s - 1))]
  }

  function EndMarker(n: nat): seq<Byte> {
    if n < MAX_CIS then [0] else []
  }

  // Everything in front of the F-PAD, in the order it is sent.
  function Stream(labelText: seq<Byte>, toggle: bool): seq<Byte>
    requires SegmentCount(labelText) <= MAX_CIS
  {
    var n := SegmentCount(labelText);
    Indicators(labelText, n) + EndMarker(n) + Fields(labelText, toggle, n)
  }

  // --------------------------------------------------------------- the buffer

  function Reverse(s: seq<Byte>): (r: seq<Byte>)
    ensures |r| == |s|
  {
    seq(|s|, i requires 0 <= i < |s| => s[|s| - 1 - i])
  }

  // The space the program reserves: it counts an end marker always.
  function Reserved(labelText: seq<Byte>): nat {
    var n := SegmentCount(labelText);
    (n + 1) + 24 * (n - 1) + FieldLength(LengthIndex(labelText, n - 1))
  }

  predicate Fits(labelText: seq<Byte>, padSize: int) {
    SegmentCount(labelText) <= MAX_CIS && Reserved(labelText) <= padSize - 2
  }

  // padSize + 1 bytes: the X-PAD backwards, zeros in front, the F-PAD, and the
  // number of bytes in use.
  function Frame(s: seq<Byte>, padSize: nat, used: Byte): seq<Byte>
    requires |s| <= padSize - 2
  {
    NoBytes(padSize - 2 - |s|) + Reverse(s) + [0x20, 0x02] + [used]
  }

  function Layout(labelText: seq<Byte>, toggle: bool, padSize: nat): seq<Byte>
    requires Fits(labelText, padSize)
  {
    StreamLength(labelText, toggle);
    Frame(Stream(labelText, toggle), padSize, (Reserved(labelText) + 2) as Byte)
  }

  lemma {:induction false} FieldsLength(labelText: seq<Byte>, toggle: bool, s: nat)
    requires s <= SegmentCount(labelText) <= MAX_CIS
    ensures |Fields(labelText, toggle, s)| ==
      if s == SegmentCount(labelText) then 24 * (s - 1) + FieldLength(LengthIndex(labelText, s - 1)) else 24 * s
  {
    if s > 0 {
      FieldsLength(labelText, toggle, s - 1);
    }
  }

  // What is laid out is what is reserved, except that four segments leave the
  // byte of the end marker unused.
  lemma StreamLength(labelText: seq<Byte>, toggle: bool)
    requires SegmentCount(labelText) <= MAX_CIS
    ensures |Stream(labelText, toggle)| == Reserved(labelText) - (if SegmentCount(labelText) == MAX_CIS then 1 else 0)
    ensures Reserved(labelText) <= 101
  {
    FieldsLength(labelText, toggle, SegmentCount(labelText));
  }

  lemma {:induction false} IndicatorAt(labelText: seq<Byte>, s: nat, k: nat)
    requires k < s <= SegmentCount(labelText)
    ensures Indicators(labelText, s)[k] == Indicator(LengthIndex(labelText, k))
    decreases s
  {
    hide Indicator, LengthIndex, SegmentCount;
    if k < s - 1 {
      IndicatorAt(labelText, s - 1, k);
    }
  }
}
