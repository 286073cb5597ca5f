// What getopt_long is for: a command line put together from options, option
// arguments and operands is read back as just those.
module OptionWords {
  import opened OptionTable
  import opened LongLookup
  import opened OptionScanner
  import opened OptionRuns

  datatype Argument = NoneGiven | Attached(text: string) | Separate(text: string)

  // One word of a command line with what belongs to it: a cluster of letters
  // whose last may have an argument, a long option, or an operand.
  datatype Word =
    | Letters(flags: string, last: char, argument: Argument)
    | Long(row: nat, value: Argument)
    | Operand(text: string)

  predicate PlainLetter(cfg: Config, c: char) {
    c != '-' && Classify(cfg, c, true) == Plain && Classify(cfg, c, false) == Plain
  }

  predicate LastLetter(cfg: Config, c: char, a: Argument) {
    c != '-' &&
    match a
    case NoneGiven => Classify(cfg, c, true) in {Plain, TakesArgument(true)}
    case Attached(text) => |text| > 0 && Classify(cfg, c, false).TakesArgument?
    case Separate(_) => Classify(cfg, c, true) == TakesArgument(false)
  }

  predicate LongArgument(o: LongOption, a: Argument) {
    match a
    case NoneGiven => o.hasArg != RequiredArgument
    case Attached(_) => o.hasArg != NoArgument
    case Separate(_) => o.hasArg == RequiredArgument
  }

  // The word uses the options of cfg as they are declared.
  predicate Proper(cfg: Config, w: Word) {
    match w
    case Letters(flags, last, a) =>
      (forall i :: 0 <= i < |flags| ==> PlainLetter(cfg, flags[i])) && LastLetter(cfg, last, a)
    case Long(row, a) =>
      cfg.longOptions.Some? && row < |cfg.longOptions.value| &&
      var o := cfg.longOptions.value[row];
      |o.name| > 0 && '=' !in o.name && FirstExact(cfg.longOptions.value, o.name, 0) == Some(row) && LongArgument(o, a)
    case Operand(text) => IsOperand(text) && cfg.Operands() == Permute
  }

  function Shape(cfg: Config, w: Word): seq<string>
    requires Proper(cfg, w)
  {
    match w
    case Letters(flags, last, a) =>
      WithArgument("-" + flags + [last] + (if a.Attached? then a.text else ""), a)
    case Long(row, a) =>
      WithArgument("--" + (cfg.longOptions.value[row].name + (if a.Attached? then "=" + a.text else "")), a)
    case Operand(text) => [text]
  }

  function WithArgument(first: string, a: Argument): seq<string> {
    if a.Separate? then [first, a.text] else [first]
  }

  function Given(a: Argument): Option<string> {
    if a.NoneGiven? then None else Some(a.text)
  }

  function Letter(c: char, arg: Option<string>): Answer {
    Answer(c as int, arg, None, None, false)
  }

  function FlagAnswers(flags: string): seq<Answer> {
    if |flags| == 0 then [] else [Letter(flags[0], None)] + FlagAnswers(flags[1..])
  }

  function Meaning(cfg: Config, w: Word): seq<Answer>
    requires Proper(cfg, w)
  {
    match w
    case Letters(flags, last, a) => FlagAnswers(flags) + [Letter(last, Given(a))]
    case Long(row, a) => [Answer(ValueOrZero(cfg.longOptions.value[row]), Given(a), None, Some(row), false)]
    case Operand(_) => []
  }

  ghost predicate AllProper(cfg: Config, words: seq<Word>) {
    forall w :: w in words ==> Proper(cfg, w)
  }

  function Line(cfg: Config, words: seq<Word>): seq<string>
    requires AllProper(cfg, words)
  {
    if |words| == 0 then [] else Shape(cfg, words[0]) + Line(cfg, words[1..])
  }

  function Meanings(cfg: Config, words: seq<Word>): seq<Answer>
    requires AllProper(cfg, words)
  {
    if |words| == 0 then [] else Meaning(cfg, words[0]) + Meanings(cfg, words[1..])
  }

  // The words that are options, or those that are operands.
  function Options(words: seq<Word>): seq<Word> {
    if |words| == 0 then [] else (if words[0].Operand? then [] else [words[0]]) + Options(words[1..])
  }

  function OperandTexts(words: seq<Word>): seq<string> {
    if |words| == 0 then [] else (if words[0].Operand? then [words[0].text] else []) + OperandTexts(words[1..])
  }

  lemma {:induction false} OptionsProper(cfg: Config, words: seq<Word>)
    requires AllProper(cfg, words)
    ensures AllProper(cfg, Options(words))
  {
    if |words| > 0 {
      OptionsProper(cfg, words[1..]);
    }
  }

  // What reading one word in front of r comes to.
  ghost predicate Reads(cfg: Config, b: seq<string>, pos: nat, answers: seq<Answer>, taken: seq<string>,
                        skipped: seq<string>, r: seq<string>)
    requires cfg.IsBsd()
  {
    Scanning(b, pos) &&
    Answers(Run(cfg, b, pos)) == answers + Answers(Run(cfg, r, 0)) &&
    Taken(cfg, b, pos) == taken + Taken(cfg, r, 0) &&
    Skipped(cfg, b, pos) == skipped + Skipped(cfg, r, 0) &&
    Unscanned(cfg, b, pos) == Unscanned(cfg, r, 0)
  }

  // One call that takes n arguments and goes on with r.
  lemma OneRead(cfg: Config, b: seq<string>, pos: nat, n: nat, a: Answer, r: seq<string>)
    requires cfg.IsBsd() && Scanning(b, pos) && n <= |b| && r == b[n..]
    requires Next(cfg, b, pos) == Call(0, n, 0, a, false, None)
    ensures Reads(cfg, b, pos, [a], b[..n], [], r)
  {
    hide Next, Taken, Skipped, Unscanned;
    Unroll(cfg, b, pos);
    RunTail(Run(cfg, b, pos), Next(cfg, b, pos), Run(cfg, r, 0));
    assert b[0..n] == b[..n] && b[..0] == [];
  }

  // The text of a cluster.
  lemma ClusterText(cfg: Config, w: Word)
    requires w.Letters? && Proper(cfg, w)
    ensures var t := Shape(cfg, w)[0];
      var n := |w.flags|;
      |t| >= n + 2 && t[0] == '-' && t[n + 1] == w.last && (forall i :: 0 <= i < n ==> t[i + 1] == w.flags[i]) &&
      t[n + 2..] == (if w.argument.Attached? then w.argument.text else "") &&
      |Shape(cfg, w)| == (if w.argument.Separate? then 2 else 1) &&
      (w.argument.Separate? ==> Shape(cfg, w)[1] == w.argument.text)
  {
    ClusterParts(w.flags, w.last, if w.argument.Attached? then w.argument.text else "");
  }

  lemma ClusterParts(flags: string, last: char, text: string)
    ensures var t := "-" + flags + [last] + text;
      var n := |flags|;
      |t| >= n + 2 && t[0] == '-' && t[n + 1] == last && (forall i :: 0 <= i < n ==> t[i + 1] == flags[i]) &&
      t[n + 2..] == text
  {
  }

  // Short options in a cluster are not read as long ones.
  lemma ReadsAsShort(cfg: Config, b: seq<string>, pos: nat)
    requires cfg.IsBsd() && !cfg.longOnly && |b| > 0 && 1 <= pos < |b[0]| && b[0][pos] != '-'
    ensures Scanning(b, pos) && Next(cfg, b, pos) == ReadShort(cfg, b, pos)
  {
    hide ReadShort, ReadLong;
  }

  lemma FlagRead(cfg: Config, b: seq<string>, pos: nat)
    requires cfg.IsBsd() && !cfg.longOnly && |b| > 0 && 1 <= pos < |b[0]| - 1 && PlainLetter(cfg, b[0][pos])
    ensures Scanning(b, pos) && Next(cfg, b, pos) == Call(0, 0, pos + 1, Letter(b[0][pos], None), false, None)
  {
    hide Next, Classify;
    ReadsAsShort(cfg, b, pos);
    assert |b[0][pos + 1..]| > 0;
  }

  lemma LastRead(cfg: Config, b: seq<string>, pos: nat, a: Argument)
    requires cfg.IsBsd() && !cfg.longOnly && |b| > 0 && 1 <= pos < |b[0]| && LastLetter(cfg, b[0][pos], a)
    requires b[0][pos + 1..] == (if a.Attached? then a.text else "")
    requires a.Separate? ==> |b| > 1 && b[1] == a.text
    ensures Scanning(b, pos)
    ensures Next(cfg, b, pos) == Call(0, if a.Separate? then 2 else 1, 0, Letter(b[0][pos], Given(a)), false, None)
  {
    hide Next, Classify;
    ReadsAsShort(cfg, b, pos);
    match a
    case NoneGiven =>
    case Attached(_) =>
    case Separate(_) =>
  }

  // The answers of a cluster from letter pos on.
  function ClusterAnswers(w: Word, pos: nat): seq<Answer>
    requires w.Letters? && 1 <= pos <= |w.flags| + 1
  {
    FlagAnswers(w.flags[pos - 1..]) + [Letter(w.last, Given(w.argument))]
  }

  lemma ClusterStep(w: Word, pos: nat)
    requires w.Letters? && 1 <= pos <= |w.flags| + 1
    ensures pos <= |w.flags| ==>
      ClusterAnswers(w, pos) == [Letter(w.flags[pos - 1], None)] + ClusterAnswers(w, pos + 1)
    ensures pos == |w.flags| + 1 ==> ClusterAnswers(w, pos) == [Letter(w.last, Given(w.argument))]
  {
    if pos <= |w.flags| {
      assert w.flags[pos - 1..][1..] == w.flags[pos..];
    }
  }

  lemma {:induction false} LettersRead(cfg: Config, w: Word, r: seq<string>, pos: nat)
    requires cfg.IsBsd() && !cfg.longOnly && w.Letters? && Proper(cfg, w) && 1 <= pos <= |w.flags| + 1
    ensures Reads(cfg, Shape(cfg, w) + r, pos, ClusterAnswers(w, pos), Shape(cfg, w), [], r)
    decreases |w.flags| + 1 - pos
  {
    hide Next, PlainLetter, LastLetter, Reads, ClusterAnswers, Shape;
    var s := Shape(cfg, w);
    var b := s + r;
    ClusterText(cfg, w);
    ClusterStep(w, pos);
    ShapeInFront(s, r);
    if pos <= |w.flags| {
      assert PlainLetter(cfg, w.flags[pos - 1]) && s[0][pos] == w.flags[pos - 1];
      FlagRead(cfg, b, pos);
      LettersRead(cfg, w, r, pos + 1);
      FlagStep(cfg, b, pos, Letter(w.flags[pos - 1], None), ClusterAnswers(w, pos + 1), s, r);
    } else {
      LastRead(cfg, b, pos, w.argument);
      OneRead(cfg, b, pos, |s|, Letter(w.last, Given(w.argument)), r);
    }
  }

  lemma ShapeInFront(s: seq<string>, r: seq<string>)
    requires |s| > 0
    ensures (s + r)[0] == s[0] && (|s| > 1 ==> (s + r)[1] == s[1]) && (s + r)[|s|..] == r && (s + r)[..|s|] == s
  {
  }

  // A call inside a cluster that takes nothing yet.
  lemma FlagStep(cfg: Config, b: seq<string>, pos: nat, a: Answer, rest: seq<Answer>, taken: seq<string>, r: seq<string>)
    requires cfg.IsBsd() && Scanning(b, pos)
    requires Next(cfg, b, pos) == Call(0, 0, pos + 1, a, false, None)
    requires Reads(cfg, b, pos + 1, rest, taken, [], r)
    ensures Reads(cfg, b, pos, [a] + rest, taken, [], r)
  {
    hide Next, Run, Taken, Skipped, Unscanned, Answers;
    FlagUnrolled(cfg, b, pos, a);
    RegroupAnswers([a], rest, Answers(Run(cfg, r, 0)));
  }

  lemma FlagUnrolled(cfg: Config, b: seq<string>, pos: nat, a: Answer)
    requires cfg.IsBsd() && Scanning(b, pos) && Scanning(b, pos + 1)
    requires Next(cfg, b, pos) == Call(0, 0, pos + 1, a, false, None)
    ensures Answers(Run(cfg, b, pos)) == [a] + Answers(Run(cfg, b, pos + 1))
    ensures Taken(cfg, b, pos) == Taken(cfg, b, pos + 1) && Skipped(cfg, b, pos) == Skipped(cfg, b, pos + 1)
    ensures Unscanned(cfg, b, pos) == Unscanned(cfg, b, pos + 1)
  {
    hide Next, Run, Taken, Skipped, Unscanned, Answers;
    Unroll(cfg, b, pos);
    NothingTaken(b, Taken(cfg, b, pos + 1), Skipped(cfg, b, pos + 1));
    RunTail(Run(cfg, b, pos), Next(cfg, b, pos), Run(cfg, b, pos + 1));
  }

  lemma NothingTaken(b: seq<string>, t: seq<string>, k: seq<string>)
    ensures b[0..0] + t == t && b[..0] + k == k && b[0..] == b
  {
  }

  lemma RegroupAnswers(a: seq<Answer>, b: seq<Answer>, c: seq<Answer>)
    ensures a + (b + c) == (a + b) + c
  {
  }

  // A long option by its exact name.
  lemma LongRead(cfg: Config, w: Word, r: seq<string>)
    requires cfg.IsBsd() && w.Long? && Proper(cfg, w)
    ensures Reads(cfg, Shape(cfg, w) + r, 0, Meaning(cfg, w), Shape(cfg, w), [], r)
  {
    hide Next, Run, Taken, Skipped, Unscanned, FirstExact, Find, Shape;
    var s := Shape(cfg, w);
    var b := s + r;
    LongText(cfg, w);
    ShapeInFront(s, r);
    LongCall(cfg, b, w.row, w.value);
    OneRead(cfg, b, 0, |s|, Meaning(cfg, w)[0], r);
  }

  lemma LongText(cfg: Config, w: Word)
    requires w.Long? && Proper(cfg, w)
    ensures |Shape(cfg, w)| == (if w.value.Separate? then 2 else 1)
    ensures w.value.Separate? ==> Shape(cfg, w)[1] == w.value.text
    ensures var t := Shape(cfg, w)[0];
      var name := cfg.longOptions.value[w.row].name;
      |t| > 2 && t[0] == '-' && t[1] == '-' && NameOf(t[2..]) == name &&
      ValueOf(t[2..]) == (if w.value.Attached? then Some(w.value.text) else None)
  {
    var name := cfg.longOptions.value[w.row].name;
    var tail := if w.value.Attached? then "=" + w.value.text else "";
    BehindDashes(name + tail);
    SplitAtEquals(name, tail);
  }

  lemma BehindDashes(x: string)
    ensures |"--" + x| == 2 + |x| && ("--" + x)[0] == '-' && ("--" + x)[1] == '-' && ("--" + x)[2..] == x
  {
  }

  lemma {:induction false} EqualsAt(name: string, tail: string)
    requires '=' !in name && (tail == "" || tail[0] == '=')
    ensures IndexOf(name + tail, '=') == |name|
  {
    if |name| == 0 {
      assert name + tail == tail;
    } else {
      EqualsAt(name[1..], tail);
      assert (name + tail)[1..] == name[1..] + tail;
    }
  }

  lemma SplitAtEquals(name: string, tail: string)
    requires '=' !in name && (tail == "" || tail[0] == '=')
    ensures NameOf(name + tail) == name
    ensures ValueOf(name + tail) == if tail == "" then None else Some(tail[1..])
  {
    var text := name + tail;
    EqualsAt(name, tail);
    assert text[..|name|] == name;
    if tail != "" {
      assert text[|name| + 1..] == tail[1..];
    }
  }

  lemma LongCall(cfg: Config, b: seq<string>, row: nat, a: Argument)
    requires cfg.IsBsd() && cfg.longOptions.Some? && row < |cfg.longOptions.value|
    requires var o := cfg.longOptions.value[row];
      FirstExact(cfg.longOptions.value, o.name, 0) == Some(row) && LongArgument(o, a) &&
      |b| > 0 && |b[0]| > 2 && b[0][0] == '-' && b[0][1] == '-' && NameOf(b[0][2..]) == o.name &&
      ValueOf(b[0][2..]) == (if a.Attached? then Some(a.text) else None)
    requires a.Separate? ==> |b| > 1 && b[1] == a.text
    ensures Next(cfg, b, 0) == Call(0, if a.Separate? then 2 else 1, 0,
                                    Answer(ValueOrZero(cfg.longOptions.value[row]), Given(a), None, Some(row), false), false, None)
  {
    hide FirstExact, NameOf, ValueOf;
    var text := b[0][1..];
    assert text[1..] == b[0][2..];
    assert Find(cfg.longOptions.value, NameOf(b[0][2..]), false, cfg.longOnly) == Match(row);
    hide Find;
    assert Next(cfg, b, 0) == ReadOption(cfg, b, 1);
    match a
    case NoneGiven =>
    case Attached(_) =>
    case Separate(_) =>
  }

  lemma NextAfterOperand(cfg: Config, x: string, r: seq<string>)
    requires cfg.IsBsd() && IsOperand(x) && cfg.Operands() == Permute
    ensures Next(cfg, [x] + r, 0) == Next(cfg, r, 0).(skip := Next(cfg, r, 0).skip + 1)
  {
    assert ([x] + r)[1..] == r;
  }

  lemma Behind(x: string, r: seq<string>, i: nat, n: nat)
    requires i + n <= |r|
    ensures ([x] + r)[i + 1..i + 1 + n] == r[i..i + n] && ([x] + r)[..i + 1] == [x] + r[..i]
    ensures ([x] + r)[i + 1 + n..] == r[i + n..]
  {
  }

  // An operand in front of r only adds to what the next call skips.
  lemma OperandRead(cfg: Config, x: string, r: seq<string>)
    requires cfg.IsBsd() && IsOperand(x) && cfg.Operands() == Permute
    ensures Reads(cfg, [x] + r, 0, [], [], [x], r)
  {
    hide Next, Run, Taken, Skipped, Unscanned, IsOperand;
    var b := [x] + r;
    NextAfterOperand(cfg, x, r);
    var c, d := Next(cfg, r, 0), Next(cfg, b, 0);
    CallProgress(cfg, r, 0);
    Behind(x, r, c.skip, c.take);
    if c.stop.None? {
      OperandThenMore(cfg, x, r, c);
    } else {
      UnrollLast(cfg, b, 0);
      UnrollLast(cfg, r, 0);
    }
  }

  lemma OperandThenMore(cfg: Config, x: string, r: seq<string>, c: Call)
    requires cfg.IsBsd() && c == Next(cfg, r, 0) && c.stop.None? && c.skip + c.take <= |r|
    requires Next(cfg, [x] + r, 0) == c.(skip := c.skip + 1)
    ensures var b := [x] + r;
      Answers(Run(cfg, b, 0)) == Answers(Run(cfg, r, 0)) && Taken(cfg, b, 0) == Taken(cfg, r, 0) &&
      Skipped(cfg, b, 0) == [x] + Skipped(cfg, r, 0) && Unscanned(cfg, b, 0) == Unscanned(cfg, r, 0)
  {
    hide Next, Run, Taken, Skipped, Unscanned, Answers;
    var b, d := [x] + r, c.(skip := c.skip + 1);
    Behind(x, r, c.skip, c.take);
    var k := r[c.skip + c.take..];
    Unroll(cfg, b, 0);
    Unroll(cfg, r, 0);
    RunTail(Run(cfg, b, 0), d, Run(cfg, k, c.pos));
    RunTail(Run(cfg, r, 0), c, Run(cfg, k, c.pos));
    Regroup([x], r[..c.skip], Skipped(cfg, k, c.pos));
  }

  lemma Regroup(a: seq<string>, b: seq<string>, c: seq<string>)
    ensures (a + b) + c == a + (b + c)
  {
  }

  lemma WordRead(cfg: Config, w: Word, r: seq<string>)
    requires cfg.IsBsd() && !cfg.longOnly && Proper(cfg, w)
    ensures Reads(cfg, Shape(cfg, w) + r, 0, Meaning(cfg, w), if w.Operand? then [] else Shape(cfg, w),
                  if w.Operand? then [w.text] else [], r)
  {
    hide Next, Reads;
    match w
    case Letters(flags, last, a) =>
      ClusterText(cfg, w);
      assert w.flags[0..] == w.flags;
      LettersRead(cfg, w, r, 1);
      ClusterAtStart(cfg, w, Shape(cfg, w) + r);
      Restart(cfg, Shape(cfg, w) + r, Meaning(cfg, w), Shape(cfg, w), r);
    case Long(_, _) => LongRead(cfg, w, r);
    case Operand(x) => OperandRead(cfg, x, r);
  }

  // Reading from the dash is reading from the first letter.
  lemma ClusterAtStart(cfg: Config, w: Word, b: seq<string>)
    requires cfg.IsBsd() && w.Letters? && Proper(cfg, w) && |b| > 0 && b[0] == Shape(cfg, w)[0]
    ensures |b[0]| > 1 && Next(cfg, b, 0) == Next(cfg, b, 1)
  {
    hide ReadOption, PlainLetter, LastLetter;
    ClusterText(cfg, w);
    if |w.flags| > 0 {
      assert PlainLetter(cfg, w.flags[0]) && b[0][1] != '-' by { assert b[0][0 + 1] == w.flags[0]; LetterIsNoDash(cfg, w); }
    } else {
      LetterIsNoDash(cfg, w);
    }
  }

  lemma LetterIsNoDash(cfg: Config, w: Word)
    requires w.Letters? && Proper(cfg, w)
    ensures w.last != '-' && (|w.flags| > 0 ==> w.flags[0] != '-')
  {
  }

  lemma Restart(cfg: Config, b: seq<string>, answers: seq<Answer>, taken: seq<string>, r: seq<string>)
    requires cfg.IsBsd() && |b| > 0 && |b[0]| > 1 && Next(cfg, b, 0) == Next(cfg, b, 1)
    requires Reads(cfg, b, 1, answers, taken, [], r)
    ensures Reads(cfg, b, 0, answers, taken, [], r)
  {
    hide Next, Run, Taken, Skipped, Unscanned;
    if Next(cfg, b, 0).stop.None? {
      Unroll(cfg, b, 0);
      Unroll(cfg, b, 1);
    } else {
      UnrollLast(cfg, b, 0);
      UnrollLast(cfg, b, 1);
    }
  }

  // A line of words in front of r.
  lemma {:induction false} LineRead(cfg: Config, words: seq<Word>, r: seq<string>)
    requires cfg.IsBsd() && !cfg.longOnly && AllProper(cfg, words)
    ensures AllProper(cfg, Options(words))
    ensures Reads(cfg, Line(cfg, words) + r, 0, Meanings(cfg, words), Line(cfg, Options(words)), OperandTexts(words), r)
  {
    hide Next, Run, Taken, Skipped, Unscanned, Proper, Shape;
    OptionsProper(cfg, words);
    if |words| == 0 {
      assert Line(cfg, words) + r == r;
    } else {
      var w, b := words[0], Line(cfg, words[1..]) + r;
      LineRead(cfg, words[1..], r);
      WordRead(cfg, w, b);
      assert Line(cfg, words) + r == Shape(cfg, w) + b;
      LineOfOptions(cfg, words);
      Chain(cfg, Line(cfg, words) + r, b, r, Meaning(cfg, w), Meanings(cfg, words[1..]),
            if w.Operand? then [] else Shape(cfg, w), Line(cfg, Options(words[1..])),
            if w.Operand? then [w.text] else [], OperandTexts(words[1..]));
    }
  }

  lemma LineOfOptions(cfg: Config, words: seq<Word>)
    requires |words| > 0 && AllProper(cfg, words) && AllProper(cfg, Options(words)) && AllProper(cfg, Options(words[1..]))
    ensures Line(cfg, Options(words)) == (if words[0].Operand? then [] else Shape(cfg, words[0])) + Line(cfg, Options(words[1..]))
  {
    hide Proper, Shape;
    if words[0].Operand? {
      assert Options(words) == Options(words[1..]);
    } else {
      assert Options(words)[1..] == Options(words[1..]);
    }
  }

  lemma Chain(cfg: Config, a: seq<string>, b: seq<string>, r: seq<string>, m: seq<Answer>, n: seq<Answer>,
              t: seq<string>, u: seq<string>, s: seq<string>, v: seq<string>)
    requires cfg.IsBsd() && Reads(cfg, a, 0, m, t, s, b) && Reads(cfg, b, 0, n, u, v, r)
    ensures Reads(cfg, a, 0, m + n, t + u, s + v, r)
  {
    hide Run, Taken, Skipped, Unscanned;
    assert m + (n + Answers(Run(cfg, r, 0))) == (m + n) + Answers(Run(cfg, r, 0));
    assert t + (u + Taken(cfg, r, 0)) == (t + u) + Taken(cfg, r, 0);
    assert s + (v + Skipped(cfg, r, 0)) == (s + v) + Skipped(cfg, r, 0);
  }

  const Ended := Answer(DONE, None, None, None, false)

  // Words, the marker, and anything behind it.
  lemma LineWithMarker(cfg: Config, words: seq<Word>, tail: seq<string>)
    requires cfg.IsBsd() && !cfg.longOnly && AllProper(cfg, words)
    ensures AllProper(cfg, Options(words))
    ensures var b := Line(cfg, words) + (["--"] + tail);
      Answers(Run(cfg, b, 0)) == Meanings(cfg, words) + [Ended] &&
      Permuted(cfg, b) == Line(cfg, Options(words)) + ["--"] + OperandTexts(words) + tail
  {
    var r := ["--"] + tail;
    assert Next(cfg, r, 0) == Finish(1, Marker);
    hide Next, Run, Taken, Skipped, Unscanned, Proper;
    LineRead(cfg, words, r);
    UnrollLast(cfg, r, 0);
    assert r[1..] == tail && r[0..1] == ["--"] && r[..0] == [];
    assert Answers(Run(cfg, r, 0)) == [Ended];
    assert OperandTexts(words) + [] == OperandTexts(words);
  }

  lemma AppendNothing(a: seq<string>)
    ensures a + [] == a
  {
  }

  // Words up to the end of the vector.
  lemma LineToEnd(cfg: Config, words: seq<Word>)
    requires cfg.IsBsd() && !cfg.longOnly && AllProper(cfg, words)
    ensures AllProper(cfg, Options(words))
    ensures var b := Line(cfg, words);
      Answers(Run(cfg, b, 0)) == Meanings(cfg, words) + [Ended] &&
      Permuted(cfg, b) == Line(cfg, Options(words)) + OperandTexts(words)
  {
    hide Next, Run, Taken, Skipped, Unscanned, Proper;
    EmptyLine(cfg);
    LineRead(cfg, words, []);
    hide Line, OperandTexts, Options, Meanings, Answers;
    AppendNothing(Line(cfg, words));
    AppendNothing(OperandTexts(words));
    AppendNothing(Line(cfg, Options(words)));
  }

  lemma EmptyLine(cfg: Config)
    requires cfg.IsBsd()
    ensures Answers(Run(cfg, [], 0)) == [Ended]
    ensures Taken(cfg, [], 0) == [] && Skipped(cfg, [], 0) == [] && Unscanned(cfg, [], 0) == []
  {
    assert Next(cfg, [], 0) == Finish(0, EndOfVector);
    hide Next, Run, Taken, Skipped, Unscanned;
    UnrollLast(cfg, [], 0);
  }
}
