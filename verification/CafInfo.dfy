// The string list of a CAF "info" chunk: src-fdkaac/src/caf_reader.c, lines
// 101-125.
module CafInfo {
  import opened OptionTable

  type Byte = x: int | 0 <= x < 0x100

  // A call of the tag callback; the last one carries no strings.
  datatype Tag = Pair(key: seq<Byte>, value: seq<Byte>) | NoMore

  // strlen at buf[at], or None if it runs out of the buffer.
  function Strlen(buf: seq<Byte>, at: nat): (n: Option<nat>)
    requires at <= |buf|
    ensures n.Some? ==> at + n.value < |buf| && buf[at + n.value] == 0
    ensures n.Some? ==> forall i :: at <= i < at + n.value ==> buf[i] != 0
    ensures n.None? ==> forall i :: at <= i < |buf| ==> buf[i] != 0
    decreases |buf| - at
  {
    if at == |buf| then None
    else if buf[at] == 0 then Some(0)
    else
      var n := Strlen(buf, at + 1);
      if n.Some? then Some(n.value + 1) else None
  }

  // One turn of the loop: it leaves the buffer, finds no value for the last
  // key, or passes a pair to the callback and goes on at next.
  datatype Turn = Outside | LoneKey | Found(tag: Tag, next: nat)

  function TakePair(buf: seq<Byte>, key: nat): (t: Turn)
    requires key <= |buf|
    ensures t.Found? ==> key < t.next <= |buf|
  {
    var k := Strlen(buf, key);
    if k.None? then Outside else
    var val := key + k.value + 1;
    if val >= |buf| then LoneKey else
    var v := Strlen(buf, val);
    if v.None? then Outside
    else Found(Pair(buf[key..key + k.value], buf[val..val + v.value]), val + v.value + 1)
  }

  function Before(tags: seq<Tag>, more: Option<seq<Tag>>): Option<seq<Tag>> {
    if more.Some? then Some(tags + more.value) else None
  }

  // The pairs passed to the callback from key on, or None if the chunk makes
  // the code read outside it.
  function Pairs(buf: seq<Byte>, key: nat): Option<seq<Tag>>
    requires key <= |buf|
    decreases |buf| - key
  {
    match TakePair(buf, key)
    case Outside => None
    case LoneKey => Some([])
    case Found(tag, next) => Before([tag], if next < |buf| then Pairs(buf, next) else Some([]))
  }

  lemma PairsStep(buf: seq<Byte>, key: nat, tags: seq<Tag>)
    requires key <= |buf|
    ensures match TakePair(buf, key)
      case Outside => Pairs(buf, key) == None
      case LoneKey => Before(tags, Pairs(buf, key)) == Some(tags)
      case Found(tag, next) =>
        Before(tags, Pairs(buf, key)) == if next < |buf| then Before(tags + [tag], Pairs(buf, next)) else Some(tags + [tag])
  {
    hide TakePair;
    assert tags + [] == tags;
    forall tag: Tag ensures tags + ([tag] + []) == tags + [tag] {}
    match TakePair(buf, key)
    case Outside =>
    case LoneKey =>
    case Found(tag, next) =>
      if next < |buf| && Pairs(buf, next).Some? {
        assert tags + ([tag] + Pairs(buf, next).value) == (tags + [tag]) + Pairs(buf, next).value;
      }
  }

  method MeasureString(buf: seq<Byte>, at: nat) returns (n: Option<nat>)
    requires at <= |buf|
    ensures n == Strlen(buf, at)
  {
    var i := at;
    while i < |buf| && buf[i] != 0
      invariant at <= i <= |buf|
      invariant Strlen(buf, at) == var m := Strlen(buf, i); if m.Some? then Some(i - at + m.value) else None
    {
      i := i + 1;
    }
    n := if i < |buf| then Some(i - at) else None;
  }

  datatype InfoResult = TooShort | ReadsOutside | Called(tags: seq<Tag>)

  // What caf_info does with a chunk of these bytes.
  function Info(buf: seq<Byte>): InfoResult {
    if |buf| < 4 then TooShort else
    var p := Pairs(buf, 4);
    if p.None? then ReadsOutside else Called(p.value + [NoMore])
  }

  method ReadInfo(buf: seq<Byte>) returns (r: InfoResult)
    ensures r == Info(buf)
  {
    hide Strlen, Pairs, Before;
    if |buf| < 4 {
      return TooShort;
    }
    var key, end := 4, |buf|;
    var tags: seq<Tag> := [];
    var more := true;
    NothingBefore(Pairs(buf, 4));
    while more
      invariant 4 <= key <= end
      invariant Before([], Pairs(buf, 4)) == if more then Before(tags, Pairs(buf, key)) else Some(tags)
      decreases more, end - key
    {
      PairsStep(buf, key, tags);
      NoneBefore(tags);
      var k := MeasureString(buf, key);
      if k.None? {
        return ReadsOutside;
      }
      var val := key + k.value + 1;
      if val < end {
        var v := MeasureString(buf, val);
        if v.None? {
          return ReadsOutside;
        }
        tags := tags + [Pair(buf[key..key + k.value], buf[val..val + v.value])];
        key := val + v.value + 1;
      }
      more := key < end && val < end;
    }
    r := Called(tags + [NoMore]);
  }

  lemma NothingBefore(p: Option<seq<Tag>>)
    ensures Before([], p) == p
  {
    assert p.Some? ==> [] + p.value == p.value;
  }

  lemma NoneBefore(tags: seq<Tag>)
    ensures Before(tags, None) == None
  {
  }

  // ---------------------------------------------------------------- meaning

  ghost predicate NulFree(s: seq<Byte>) {
    forall i :: 0 <= i < |s| ==> s[i] != 0
  }

  ghost predicate AllNulFree(strings: seq<seq<Byte>>) {
    forall i :: 0 <= i < |strings| ==> NulFree(strings[i])
  }

  // Strings, each with its NUL.
  function Join(strings: seq<seq<Byte>>): seq<Byte> {
    if |strings| == 0 then [] else (strings[0] + [0]) + Join(strings[1..])
  }

  // Strings two by two; an odd one at the end is dropped.
  function PairUp(strings: seq<seq<Byte>>): seq<Tag> {
    if |strings| < 2 then [] else [Pair(strings[0], strings[1])] + PairUp(strings[2..])
  }

  lemma {:induction false} StrlenOf(pre: seq<Byte>, s: seq<Byte>, rest: seq<Byte>)
    requires NulFree(s)
    ensures Strlen(pre + ((s + [0]) + rest), |pre|) == Some(|s|)
    ensures (pre + ((s + [0]) + rest))[|pre|..|pre| + |s|] == s
  {
    var buf := pre + ((s + [0]) + rest);
    assert forall i :: 0 <= i < |s| ==> buf[|pre| + i] == s[i];
    assert buf[|pre| + |s|] == 0;
    StrlenAt(buf, |pre|, |s|);
  }

  lemma {:induction false} StrlenAt(buf: seq<Byte>, at: nat, n: nat)
    requires at + n < |buf| && buf[at + n] == 0 && forall i :: at <= i < at + n ==> buf[i] != 0
    ensures Strlen(buf, at) == Some(n)
    decreases n
  {
    if n > 0 {
      StrlenAt(buf, at + 1, n - 1);
    }
  }

  // The strings of a chunk arrive two by two, in order, whatever stands before
  // them.
  lemma {:induction false} PairsOfStrings(pre: seq<Byte>, strings: seq<seq<Byte>>)
    requires |strings| >= 1 && AllNulFree(strings)
    ensures Pairs(pre + Join(strings), |pre|) == Some(PairUp(strings))
    decreases |strings|
  {
    hide Strlen, TakePair;
    TurnOnStrings(pre, strings);
    if |strings| > 2 {
      var pre2 := pre + (strings[0] + [0]) + (strings[1] + [0]);
      PairsOfStrings(pre2, strings[2..]);
    }
  }

  lemma Regroup(pre: seq<Byte>, a: seq<Byte>, b: seq<Byte>, r: seq<Byte>)
    ensures pre + (a + (b + r)) == (pre + a) + (b + r) == ((pre + a) + b) + r
  {
  }

  lemma TurnOnStrings(pre: seq<Byte>, strings: seq<seq<Byte>>)
    requires |strings| >= 1 && AllNulFree(strings)
    ensures var buf := pre + Join(strings);
      if |strings| == 1 then TakePair(buf, |pre|) == LoneKey
      else
        var pre2 := pre + (strings[0] + [0]) + (strings[1] + [0]);
        buf == pre2 + Join(strings[2..]) && (|strings| > 2 <==> |Join(strings[2..])| > 0) &&
        TakePair(buf, |pre|) == Found(Pair(strings[0], strings[1]), |pre2|)
  {
    hide Strlen, TakePair, NulFree;
    if |strings| == 1 {
      assert Join(strings[1..]) == [];
      LastString(pre, strings[0]);
    } else {
      var r := Join(strings[2..]);
      assert strings[1..][1..] == strings[2..];
      Regroup(pre, strings[0] + [0], strings[1] + [0], r);
      assert Join(strings) == (strings[0] + [0]) + ((strings[1] + [0]) + r);
      hide Join;
      TwoStrings(pre, strings[0], strings[1], r);
    }
  }

  lemma LastString(pre: seq<Byte>, s: seq<Byte>)
    requires NulFree(s)
    ensures TakePair(pre + ((s + [0]) + []), |pre|) == LoneKey
  {
    hide Strlen;
    StrlenOf(pre, s, []);
  }

  lemma TwoStrings(pre: seq<Byte>, s: seq<Byte>, t: seq<Byte>, r: seq<Byte>)
    requires NulFree(s) && NulFree(t)
    ensures TakePair(pre + ((s + [0]) + ((t + [0]) + r)), |pre|) ==
            Found(Pair(s, t), |pre + (s + [0]) + (t + [0])|)
  {
    hide Strlen, NulFree;
    StrlenOf(pre, s, (t + [0]) + r);
    StrlenOf(pre + (s + [0]), t, r);
    Regroup(pre, s + [0], t + [0], r);
  }

  // The code stays inside a chunk exactly when a string follows the count and
  // the chunk ends with a NUL.
  lemma StaysInsideExactly(buf: seq<Byte>)
    ensures Info(buf).Called? <==> |buf| >= 5 && buf[|buf| - 1] == 0
    ensures Info(buf).TooShort? <==> |buf| < 4
  {
    if |buf| >= 4 {
      PairsInside(buf, 4);
    }
  }

  lemma {:induction false} PairsInside(buf: seq<Byte>, key: nat)
    requires key <= |buf|
    ensures Pairs(buf, key).Some? <==> key < |buf| && buf[|buf| - 1] == 0
    decreases |buf| - key
  {
    hide TakePair;
    TurnInside(buf, key);
    match TakePair(buf, key)
    case Outside =>
    case LoneKey =>
    case Found(_, next) =>
      if next < |buf| {
        PairsInside(buf, next);
      }
  }

  lemma TurnInside(buf: seq<Byte>, key: nat)
    requires key <= |buf|
    ensures match TakePair(buf, key)
      case Outside => key == |buf| || buf[|buf| - 1] != 0
      case LoneKey => key < |buf| && buf[|buf| - 1] == 0
      case Found(_, next) => key < next <= |buf| && (next == |buf| ==> buf[|buf| - 1] == 0)
  {
    hide Strlen;
  }

  // ------------------------------------------------------------- round trip

  ghost predicate AllPairs(tags: seq<Tag>) {
    forall i :: 0 <= i < |tags| ==> tags[i].Pair? && NulFree(tags[i].key) && NulFree(tags[i].value)
  }

  function Flatten(tags: seq<Tag>): seq<seq<Byte>>
    requires forall i :: 0 <= i < |tags| ==> tags[i].Pair?
  {
    if |tags| == 0 then [] else [tags[0].key, tags[0].value] + Flatten(tags[1..])
  }

  lemma {:induction false} PairUpFlatten(tags: seq<Tag>)
    requires AllPairs(tags)
    ensures PairUp(Flatten(tags)) == tags && AllNulFree(Flatten(tags)) && |Flatten(tags)| == 2 * |tags|
  {
    if |tags| > 0 {
      PairUpFlatten(tags[1..]);
      assert Flatten(tags)[2..] == Flatten(tags[1..]);
    }
  }

  // A list written as a count of four bytes and its strings is read back
  // exactly, then the callback gets its last call.
  lemma InfoRoundTrip(count: seq<Byte>, tags: seq<Tag>)
    requires |count| == 4 && |tags| > 0 && AllPairs(tags)
    ensures Info(count + Join(Flatten(tags))) == Called(tags + [NoMore])
  {
    PairUpFlatten(tags);
    PairsOfStrings(count, Flatten(tags));
  }

  // Not so for the empty list.
  lemma EmptyListReadsOutside(count: seq<Byte>)
    requires |count| == 4
    ensures Info(count + Join(Flatten([]))) == ReadsOutside
  {
    StaysInsideExactly(count + Join(Flatten([])));
  }
}
