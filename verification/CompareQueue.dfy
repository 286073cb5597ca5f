// The queue of src-fdk-aac/test-encode-decode.c (lines 29-86) that holds the
// encoder's input until the decoder's output can be compared with it.
module CompareQueue {

  type Sample = x: int | -0x8000 <= x < 0x8000

  const INT_MAX := 0x7fff_ffff
  const WRAP := 0x1_0000_0000_0000_0000

  type U64 = x: int | 0 <= x < WRAP

  function Wrap(x: nat): U64 {
    x % WRAP
  }

  function AbsDiff(a: Sample, b: Sample): nat {
    if a < b then b - a else a - b
  }

  // ----------------------------------------- the comparison it should amount to

  // Sum and maximum of the differences of a[i] and b[i].
  function SumDiff(a: seq<Sample>, b: seq<Sample>): nat
    requires |a| == |b|
  {
    if |a| == 0 then 0
    else SumDiff(a[..|a| - 1], b[..|b| - 1]) + AbsDiff(a[|a| - 1], b[|b| - 1])
  }

  function MaxDiff(a: seq<Sample>, b: seq<Sample>): nat
    requires |a| == |b|
  {
    if |a| == 0 then 0
    else Max(MaxDiff(a[..|a| - 1], b[..|b| - 1]), AbsDiff(a[|a| - 1], b[|b| - 1]))
  }

  function Max(x: nat, y: nat): nat {
    if x < y then y else x
  }

  function Min(x: nat, y: nat): nat {
    if x < y then x else y
  }

  lemma {:induction false} SumDiffAppend(a: seq<Sample>, b: seq<Sample>, c: seq<Sample>, d: seq<Sample>)
    requires |a| == |b| && |c| == |d|
    ensures SumDiff(a + c, b + d) == SumDiff(a, b) + SumDiff(c, d)
    ensures MaxDiff(a + c, b + d) == Max(MaxDiff(a, b), MaxDiff(c, d))
    decreases |c|
  {
    if |c| == 0 {
      assert a + c == a && b + d == b;
    } else {
      var k := |c| - 1;
      SumDiffAppend(a, b, c[..k], d[..k]);
      assert (a + c)[..|a + c| - 1] == a + c[..k] && (b + d)[..|b + d| - 1] == b + d[..k];
    }
  }

  // The maximum bounds every difference, either way, and is one of them.
  lemma {:induction false} MaxDiffIsMaximum(a: seq<Sample>, b: seq<Sample>)
    requires |a| == |b|
    ensures forall i :: 0 <= i < |a| ==> a[i] <= b[i] + MaxDiff(a, b) && b[i] <= a[i] + MaxDiff(a, b)
    ensures |a| == 0 ==> MaxDiff(a, b) == 0
    ensures |a| > 0 ==>
      exists i :: 0 <= i < |a| && (a[i] == b[i] + MaxDiff(a, b) || b[i] == a[i] + MaxDiff(a, b))
  {
    if |a| > 0 {
      var k := |a| - 1;
      var c, d := a[..k], b[..k];
      var m := MaxDiff(a, b);
      MaxDiffIsMaximum(c, d);
      forall i | 0 <= i < |a| ensures a[i] <= b[i] + m && b[i] <= a[i] + m {
        if i < k {
          assert c[i] <= d[i] + MaxDiff(c, d) && d[i] <= c[i] + MaxDiff(c, d);
        }
      }
      if a[k] != b[k] + m && b[k] != a[k] + m {
        var i :| 0 <= i < |c| && (c[i] == d[i] + MaxDiff(c, d) || d[i] == c[i] + MaxDiff(c, d));
        assert a[i] == b[i] + m || b[i] == a[i] + m;
      }
    }
  }

  function Total(a: seq<Sample>): int {
    if |a| == 0 then 0 else Total(a[..|a| - 1]) + a[|a| - 1]
  }

  // Where one signal is never below the other, the sum of the differences is
  // the difference of the sums.
  lemma {:induction false} SumDiffIsDifference(a: seq<Sample>, b: seq<Sample>)
    requires |a| == |b| && forall i :: 0 <= i < |a| ==> a[i] >= b[i]
    ensures SumDiff(a, b) == Total(a) - Total(b)
    decreases |a|
  {
    if |a| > 0 {
      var k := |a| - 1;
      SumDiffIsDifference(a[..k], b[..k]);
    }
  }

  // The order of the signals does not matter.
  lemma {:induction false} Symmetric(a: seq<Sample>, b: seq<Sample>)
    requires |a| == |b|
    ensures SumDiff(a, b) == SumDiff(b, a) && MaxDiff(a, b) == MaxDiff(b, a)
    decreases |a|
  {
    if |a| > 0 {
      Symmetric(a[..|a| - 1], b[..|b| - 1]);
    }
  }

  // Nothing is reported exactly when the signals are the same.
  lemma {:induction false} ZeroExactly(a: seq<Sample>, b: seq<Sample>)
    requires |a| == |b|
    ensures SumDiff(a, b) == 0 <==> a == b
    ensures MaxDiff(a, b) == 0 <==> a == b
    decreases |a|
  {
    if |a| > 0 {
      var k := |a| - 1;
      ZeroExactly(a[..k], b[..k]);
      assert a == a[..k] + [a[k]] && b == b[..k] + [b[k]];
    }
  }

  // ---------------------------------------------------- the state and its steps

  // What the static variables hold.
  datatype State = State(queued: seq<Sample>, skip: int, maxDiff: nat, diffSum: U64, diffSamples: U64)

  datatype Event = Append(input: seq<Sample>) | Compare(output: seq<Sample>)

  // The output that is left behind the samples to be skipped.
  function Heard(skip: int, output: seq<Sample>): seq<Sample> {
    if skip <= 0 then output else output[Min(skip, |output|)..]
  }

  function Step(s: State, e: Event): State {
    match e
    case Append(input) => s.(queued := s.queued + input)
    case Compare(output) =>
      var heard := Heard(s.skip, output);
      var n := Min(|heard|, |s.queued|);
      State(s.queued[n..],
            if s.skip <= 0 then s.skip else s.skip - Min(s.skip, |output|),
            Max(s.maxDiff, MaxDiff(s.queued[..n], heard[..n])),
            Wrap(s.diffSum + SumDiff(s.queued[..n], heard[..n])),
            Wrap(s.diffSamples + n))
  }

  function Steps(s: State, events: seq<Event>): State {
    if |events| == 0 then s else Step(Steps(s, events[..|events| - 1]), events[|events| - 1])
  }

  lemma OneMore(a: seq<Sample>, b: seq<Sample>)
    requires |a| == |b| > 0
    ensures var k := |a| - 1;
      SumDiff(a, b) == SumDiff(a[..k], b[..k]) + AbsDiff(a[k], b[k]) &&
      MaxDiff(a, b) == Max(MaxDiff(a[..k], b[..k]), AbsDiff(a[k], b[k]))
  {
  }

  lemma AddWrapped(x: nat, d: nat)
    ensures Wrap(Wrap(x) + d) == Wrap(x + d)
  {
    var q := x / WRAP;
    assert x + d == q * WRAP + (x % WRAP + d);
    WrapShift(q, x % WRAP + d);
  }

  lemma AlreadyWrapped(x: U64, y: U64)
    ensures Wrap(x) == x && Wrap(y) == y && SumDiff([], []) == 0 && MaxDiff([], []) == 0
  {
  }

  lemma {:induction false} WrapShift(q: nat, y: nat)
    ensures (q * WRAP + y) % WRAP == y % WRAP
  {
    if q > 0 {
      WrapShift(q - 1, y);
      assert (q - 1) * WRAP + y + WRAP == q * WRAP + y;
    }
  }

  lemma NothingHeard(s: State, output: seq<Sample>)
    requires Heard(s.skip, output) == [] && s.skip > 0
    ensures Step(s, Compare(output)) == s.(skip := s.skip - Min(s.skip, |output|))
  {
  }

  class Comparer {
    var encoderInput: array<Sample>
    var encoderInputSamples: nat
    var encoderInputSize: nat
    var decoderOutputSkip: int
    var maxDiff: nat
    var diffSum: U64
    var diffSamples: U64

    constructor ()
      ensures Valid() && fresh(encoderInput) && Now() == State([], 0, 0, 0, 0)
    {
      encoderInput := new Sample[0];
      encoderInputSamples, encoderInputSize, decoderOutputSkip := 0, 0, 0;
      maxDiff, diffSum, diffSamples := 0, 0, 0;
    }

    ghost predicate Valid()
      reads this
    {
      encoderInputSize == encoderInput.Length && encoderInputSamples <= encoderInputSize
    }

    ghost function Now(): State
      requires Valid()
      reads this, encoderInput
    {
      State(encoderInput[..encoderInputSamples], decoderOutputSkip, maxDiff, diffSum, diffSamples)
    }

    // init_encoder_input; the skip is set by the caller.
    method Init()
      requires Valid()
      modifies this`encoderInputSamples, this`maxDiff, this`diffSum, this`diffSamples
      ensures Valid() && Now() == State([], old(decoderOutputSkip), 0, 0, 0)
    {
      encoderInputSamples := 0;
      maxDiff := 0;
      diffSum, diffSamples := 0, 0;
    }

    // free_encoder_input, which is followed by Init before the queue is used.
    method Free()
      modifies this`encoderInput, this`encoderInputSize
      ensures fresh(encoderInput) && encoderInput.Length == encoderInputSize == 0
    {
      encoderInput := new Sample[0];
      encoderInputSize := 0;
    }

    // append_encoder_input.
    method AppendInput(input: seq<Sample>)
      requires Valid() && encoderInputSamples + |input| <= INT_MAX
      requires encoderInputSamples + |input| > encoderInputSize ==> 2 * (encoderInputSamples + |input|) <= INT_MAX
      modifies this`encoderInput, this`encoderInputSize, this`encoderInputSamples, encoderInput
      ensures Valid() && (encoderInput == old(encoderInput) || fresh(encoderInput))
      ensures Now() == Step(old(Now()), Append(input))
    {
      ghost var before := encoderInput[..encoderInputSamples];
      if encoderInputSamples + |input| > encoderInputSize {
        Grow(2 * (encoderInputSamples + |input|));
      }
      assert encoderInput[..encoderInputSamples] == before;
      forall i | 0 <= i < |input| {
        encoderInput[encoderInputSamples + i] := input[i];
      }
      assert encoderInput[..encoderInputSamples] == before;
      encoderInputSamples := encoderInputSamples + |input|;
      assert encoderInput[..encoderInputSamples] == before + input;
    }

    // realloc keeps what the buffer held.
    method Grow(size: nat)
      requires Valid() && encoderInputSize <= size
      modifies this`encoderInput, this`encoderInputSize
      ensures Valid() && fresh(encoderInput) && encoderInputSize == size
      ensures encoderInput[..encoderInputSamples] == old(encoderInput[..encoderInputSamples])
    {
      var ptr := new Sample[size];
      forall i | 0 <= i < encoderInputSize {
        ptr[i] := encoderInput[i];
      }
      encoderInput, encoderInputSize := ptr, size;
    }

    // compare_decoder_output, without the hash of the output.
    method CompareOutput(output: seq<Sample>)
      requires Valid()
      modifies this`encoderInputSamples, this`decoderOutputSkip, this`maxDiff, this`diffSum, this`diffSamples, encoderInput
      ensures Valid() && Now() == Step(old(Now()), Compare(output))
    {
      ghost var s := Now();
      var rest := output;
      if decoderOutputSkip > 0 {
        var n := |rest|;
        if n > decoderOutputSkip {
          n := decoderOutputSkip;
        }
        rest := rest[n..];
        decoderOutputSkip := decoderOutputSkip - n;
        if |rest| <= 0 {
          assert Heard(s.skip, output) == [];
          NothingHeard(s, output);
          return;
        }
      }
      assert rest == Heard(s.skip, output);
      ghost var queued := encoderInput[..encoderInputSamples];
      var samples := |rest|;
      if samples > encoderInputSamples {
        samples := encoderInputSamples;
      }
      assert queued[..samples] == encoderInput[..samples];
      assert queued[samples..] == encoderInput[samples..encoderInputSamples];
      TakeDiffs(rest, samples);
      Discard(samples);
    }

    // The loop of lines 77-83.
    method TakeDiffs(output: seq<Sample>, samples: nat)
      requires Valid() && samples <= |output| && samples <= encoderInputSamples
      modifies this`maxDiff, this`diffSum, this`diffSamples
      ensures var a, b := encoderInput[..samples], output[..samples];
        maxDiff == Max(old(maxDiff), MaxDiff(a, b)) && diffSum == Wrap(old(diffSum) + SumDiff(a, b)) &&
        diffSamples == Wrap(old(diffSamples) + samples)
    {
      hide Wrap, SumDiff, MaxDiff, AbsDiff;
      AlreadyWrapped(diffSum, diffSamples);
      for i := 0 to samples
        invariant maxDiff == Max(old(maxDiff), MaxDiff(encoderInput[..i], output[..i]))
        invariant diffSum == Wrap(old(diffSum) + SumDiff(encoderInput[..i], output[..i]))
        invariant diffSamples == Wrap(old(diffSamples) + i)
      {
        OneMore(encoderInput[..i + 1], output[..i + 1]);
        assert encoderInput[..i + 1][..i] == encoderInput[..i] && output[..i + 1][..i] == output[..i];
        var diff := AbsDiff(encoderInput[i], output[i]);
        if diff > maxDiff {
          maxDiff := diff;
        }
        AddWrapped(old(diffSum) + SumDiff(encoderInput[..i], output[..i]), diff);
        AddWrapped(old(diffSamples) + i, 1);
        diffSum := Wrap(diffSum + diff);
        diffSamples := Wrap(diffSamples + 1);
      }
    }

    // The memmove of line 84.
    method Discard(samples: nat)
      requires Valid() && samples <= encoderInputSamples
      modifies this`encoderInputSamples, encoderInput
      ensures Valid() && encoderInput[..encoderInputSamples] == old(encoderInput[samples..encoderInputSamples])
    {
      ghost var queued := encoderInput[samples..encoderInputSamples];
      var left := encoderInputSamples - samples;
      forall i | 0 <= i < left {
        encoderInput[i] := encoderInput[samples + i];
      }
      encoderInputSamples := left;
      assert encoderInput[..left] == queued;
    }
  }

  // ------------------------------------------------------------- whole runs

  function Start(skip: int): State {
    State([], skip, 0, 0, 0)
  }

  // All input appended and all output passed, in order.
  function Fed(events: seq<Event>): seq<Sample> {
    if |events| == 0 then []
    else Fed(events[..|events| - 1]) + (match events[|events| - 1] case Append(input) => input case Compare(_) => [])
  }

  function Output(events: seq<Event>): seq<Sample> {
    if |events| == 0 then []
    else Output(events[..|events| - 1]) + (match events[|events| - 1] case Append(_) => [] case Compare(output) => output)
  }

  // The output samples that were compared with some input.
  function Compared(skip: int, events: seq<Event>): seq<Sample> {
    if |events| == 0 then [] else
      var before := events[..|events| - 1];
      var s := Steps(Start(skip), before);
      Compared(skip, before) +
      match events[|events| - 1]
      case Append(_) => []
      case Compare(output) =>
        var heard := Heard(s.skip, output);
        heard[..Min(|heard|, |s.queued|)]
  }

  function SkipLeft(skip: int, n: nat): int {
    if skip <= 0 then skip else skip - Min(skip, n)
  }

  // No output came before the input it belongs to had been appended.
  predicate NeverAhead(skip: int, events: seq<Event>) {
    |events| > 0 ==>
      NeverAhead(skip, events[..|events| - 1]) && |Heard(skip, Output(events))| <= |Fed(events)|
  }

  // s is the state of one comparison of the input with the output samples
  // compared, sample by sample, the rest of the input being queued.
  ghost predicate Accounts(s: State, skip: int, fed: seq<Sample>, output: seq<Sample>, compared: seq<Sample>) {
    |compared| <= |fed| && s.queued == fed[|compared|..] && s.skip == SkipLeft(skip, |output|) &&
    s.maxDiff == MaxDiff(fed[..|compared|], compared) && s.diffSum == Wrap(SumDiff(fed[..|compared|], compared)) &&
    s.diffSamples == Wrap(|compared|)
  }

  lemma AppendAccounts(s: State, skip: int, fed: seq<Sample>, output: seq<Sample>, compared: seq<Sample>, input: seq<Sample>)
    requires Accounts(s, skip, fed, output, compared)
    ensures Accounts(Step(s, Append(input)), skip, fed + input, output, compared)
  {
    hide Wrap, SumDiff, MaxDiff;
    assert (fed + input)[..|compared|] == fed[..|compared|];
  }

  lemma CompareAccounts(s: State, skip: int, fed: seq<Sample>, output: seq<Sample>, compared: seq<Sample>, more: seq<Sample>)
    requires Accounts(s, skip, fed, output, compared)
    ensures var heard := Heard(s.skip, more);
      Accounts(Step(s, Compare(more)), skip, fed, output + more, compared + heard[..Min(|heard|, |s.queued|)])
  {
    hide Wrap, SumDiff, MaxDiff, Heard;
    var heard := Heard(s.skip, more);
    var n := Min(|heard|, |s.queued|);
    var c := |compared|;
    assert fed[..c + n] == fed[..c] + s.queued[..n];
    SumDiffAppend(fed[..c], compared, s.queued[..n], heard[..n]);
    AddWrapped(SumDiff(fed[..c], compared), SumDiff(s.queued[..n], heard[..n]));
    AddWrapped(c, n);
  }

  lemma {:induction false} RunAccounts(skip: int, events: seq<Event>)
    ensures Accounts(Steps(Start(skip), events), skip, Fed(events), Output(events), Compared(skip, events))
  {
    hide Accounts, Step, Heard;
    if |events| == 0 {
      AccountsStart(skip);
    } else {
      var before := events[..|events| - 1];
      RunAccounts(skip, before);
      var s, fed, output, compared := Steps(Start(skip), before), Fed(before), Output(before), Compared(skip, before);
      match events[|events| - 1]
      case Append(input) =>
        AppendAccounts(s, skip, fed, output, compared, input);
        assert output + [] == output && compared + [] == compared;
      case Compare(more) =>
        CompareAccounts(s, skip, fed, output, compared, more);
        assert fed + [] == fed;
    }
  }

  lemma AccountsStart(skip: int)
    ensures Accounts(Start(skip), skip, [], [], [])
  {
  }

  // What is heard is the output from sample skip on.
  lemma HeardFrom(skip: int, output: seq<Sample>)
    ensures skip <= 0 ==> Heard(skip, output) == output
    ensures 0 < skip <= |output| ==> Heard(skip, output) == output[skip..]
    ensures skip > |output| ==> Heard(skip, output) == []
  {
  }

  // The statistics have 64 bits.
  lemma WrapModulo(x: nat)
    ensures Wrap(x) == x % 18446744073709551616
  {
  }

  lemma HeardAppend(skip: int, a: seq<Sample>, b: seq<Sample>)
    ensures Heard(skip, a + b) == Heard(skip, a) + Heard(SkipLeft(skip, |a|), b)
  {
  }

  // What was compared is all the output behind the skipped samples exactly
  // when the output never ran ahead.
  lemma {:induction false} AlignedExactly(skip: int, events: seq<Event>)
    ensures |Compared(skip, events)| <= |Heard(skip, Output(events))|
    ensures Compared(skip, events) == Heard(skip, Output(events)) <==> NeverAhead(skip, events)
    ensures |Compared(skip, events)| == |Heard(skip, Output(events))| ==> NeverAhead(skip, events)
  {
    if |events| > 0 {
      var before := events[..|events| - 1];
      AlignedExactly(skip, before);
      RunAccounts(skip, before);
      match events[|events| - 1]
      case Append(input) =>
        assert Output(events) == Output(before) && Compared(skip, events) == Compared(skip, before);
        InputOnly(skip, events);
      case Compare(output) =>
        HeardAppend(skip, Output(before), output);
    }
  }

  lemma InputOnly(skip: int, events: seq<Event>)
    requires |events| > 0 && events[|events| - 1].Append?
    ensures NeverAhead(skip, events) <==> NeverAhead(skip, events[..|events| - 1])
  {
    var before := events[..|events| - 1];
    assert Output(events) == Output(before);
    if NeverAhead(skip, before) && |before| == 0 {
      assert Output(before) == [];
    }
  }

  // Unless the output runs ahead, the statistics are those of comparing input
  // and output with the skipped samples removed, and nothing else matters: no
  // sample is lost, however the run was cut into calls.
  lemma AlignedStatistics(skip: int, events: seq<Event>)
    requires NeverAhead(skip, events)
    ensures var s, fed, heard := Steps(Start(skip), events), Fed(events), Heard(skip, Output(events));
      |heard| <= |fed| && |fed| == |heard| + |s.queued| &&
      s == State(fed[|heard|..], SkipLeft(skip, |Output(events)|), MaxDiff(fed[..|heard|], heard),
                 Wrap(SumDiff(fed[..|heard|], heard)), Wrap(|heard|))
  {
    RunAccounts(skip, events);
    AlignedExactly(skip, events);
  }

  lemma ChunkingIrrelevant(skip: int, a: seq<Event>, b: seq<Event>)
    requires NeverAhead(skip, a) && NeverAhead(skip, b) && Fed(a) == Fed(b) && Output(a) == Output(b)
    ensures Steps(Start(skip), a) == Steps(Start(skip), b)
  {
    AlignedStatistics(skip, a);
    AlignedStatistics(skip, b);
  }

  // When the output runs ahead, what had no input yet is dropped, and later
  // samples are compared with the wrong ones.
  lemma AheadMisaligns()
    ensures var early, late := [Compare([5]), Append([5, 7]), Compare([7])], [Append([5, 7]), Compare([5, 7])];
      Fed(early) == Fed(late) && Output(early) == Output(late) && !NeverAhead(0, early) &&
      Steps(Start(0), early).maxDiff == 2 && Steps(Start(0), late).maxDiff == 0
  {
    EarlyRun();
    LateRun();
  }

  lemma EarlyRun()
    ensures var t := [Compare([5]), Append([5, 7]), Compare([7])];
      Fed(t) == [5, 7] && Output(t) == [5, 7] && !NeverAhead(0, t) && Steps(Start(0), t).maxDiff == 2
  {
    hide NeverAhead, MaxDiff, SumDiff, Wrap, Fed, Output, Steps;
    var c5, a57, c7 := Compare([5]), Append([5, 7]), Compare([7]);
    NoEvent(0);
    OneEvent(0, [], c5);
    OneEvent(0, [c5], a57);
    OneEvent(0, [c5, a57], c7);
    assert [] + [c5] == [c5] && [c5] + [a57] == [c5, a57] && [c5, a57] + [c7] == [c5, a57, c7];
    Drops(Start(0), [5]);
    var s := Step(Step(Start(0), c5), a57);
    assert s.queued == [5, 7] && s.queued[..1] == [5] && Heard(0, [7])[..1] == [7];
    TwoDiffs();
  }

  lemma LateRun()
    ensures var t := [Append([5, 7]), Compare([5, 7])];
      Fed(t) == [5, 7] && Output(t) == [5, 7] && Steps(Start(0), t).maxDiff == 0
  {
    hide NeverAhead, MaxDiff, SumDiff, Wrap, Fed, Output, Steps;
    var a57, c57 := Append([5, 7]), Compare([5, 7]);
    NoEvent(0);
    OneEvent(0, [], a57);
    OneEvent(0, [a57], c57);
    assert [] + [a57] == [a57] && [a57] + [c57] == [a57, c57];
    var s := Step(Start(0), a57);
    assert s.queued == [5, 7] && s.queued[..2] == [5, 7] && Heard(0, [5, 7])[..2] == [5, 7];
    TwoDiffs();
  }

  lemma TwoDiffs()
    ensures MaxDiff([5], [7]) == 2 && MaxDiff([5, 7], [5, 7]) == 0
  {
    OneMore([5], [7]);
    OneMore([5, 7], [5, 7]);
    OneMore([5], [5]);
    var x: seq<Sample> := [5, 7];
    assert x[..1] == [5];
  }

  // Output without any input queued leaves no trace.
  lemma Drops(s: State, output: seq<Sample>)
    requires s.queued == [] && s.skip <= 0
    ensures Step(s, Compare(output)) == s
  {
    AlreadyWrapped(s.diffSum, s.diffSamples);
  }

  lemma NoEvent(skip: int)
    ensures Fed([]) == [] && Output([]) == [] && Steps(Start(skip), []) == Start(skip) && MaxDiff([], []) == 0
  {
  }

  lemma OneEvent(skip: int, events: seq<Event>, e: Event)
    ensures var all := events + [e];
      Steps(Start(skip), all) == Step(Steps(Start(skip), events), e) &&
      Fed(all) == Fed(events) + (match e case Append(input) => input case Compare(_) => []) &&
      Output(all) == Output(events) + (match e case Append(_) => [] case Compare(output) => output) &&
      (NeverAhead(skip, all) <==> NeverAhead(skip, events) && |Heard(skip, Output(all))| <= |Fed(all)|)
  {
    assert (events + [e])[..|events|] == events;
  }
}
