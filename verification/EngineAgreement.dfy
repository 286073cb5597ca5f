// Where the two engines scan a vector alike: plain getopt on arguments without
// ":" and without further dashes.
module EngineAgreement {
  import opened OptionTable
  import opened OptionScanner
  import opened OptionRuns

  // The same call of getopt on either engine.
  function OnBsd(options: string, posixlyCorrect: bool): Config {
    Config(Bsd, options, None, false, posixlyCorrect)
  }

  function OnMingw(options: string, posixlyCorrect: bool): Config {
    Config(Mingw, options, None, false, posixlyCorrect || (|options| > 0 && options[0] == '+'))
  }

  predicate PlainArgument(arg: string) {
    IsOperand(arg) || IsMarker(arg) || forall i :: 1 <= i < |arg| ==> arg[i] != ':' && arg[i] != '-'
  }

  ghost predicate PlainVector(rest: seq<string>) {
    forall i :: 0 <= i < |rest| ==> PlainArgument(rest[i])
  }

  // Two calls that take and skip the same and give the same answer; the second
  // engine reports optopt differently, and optarg on errors.
  ghost predicate Alike(c: Call, d: Call) {
    c.skip == d.skip && c.take == d.take && c.pos == d.pos && c.missing == d.missing && c.stop == d.stop &&
    c.answer.ret == d.answer.ret && (d.answer.keeps || d.missing || c.answer.optarg == d.answer.optarg)
  }

  lemma {:induction false} IndexBehindColon(s: string, c: char)
    requires |s| > 0 && s[0] != c
    ensures IndexOf(s, c) == 1 + IndexOf(s[1..], c)
  {
  }

  // Both engines classify a letter alike, a leading ":" or not.
  lemma LettersAlike(options: string, posix: bool, c: char, last: bool)
    requires c != ':' && c != '-'
    ensures Classify(OnBsd(options, posix), c, last) == MingwClassify(OnMingw(options, posix), c)
  {
    var letters := OnBsd(options, posix).Letters();
    assert OnMingw(options, posix).Letters() == letters;
    if |letters| > 0 && letters[0] == ':' {
      IndexBehindColon(letters, c);
      var i := IndexOf(letters[1..], c);
      assert CharAt(letters, i + 2) == CharAt(letters[1..], i + 1);
      assert CharAt(letters, i + 3) == CharAt(letters[1..], i + 2);
    }
  }

  lemma OptionsAlike(options: string, posix: bool, rest: seq<string>, pos: nat)
    requires |rest| > 0 && 1 <= pos < |rest[0]| && rest[0][pos] != ':' && rest[0][pos] != '-'
    ensures Alike(ReadOption(OnBsd(options, posix), rest, pos), ReadOption(OnMingw(options, posix), rest, pos))
  {
    hide Classify, MingwClassify;
    var b, m := OnBsd(options, posix), OnMingw(options, posix);
    var after := rest[0][pos + 1..];
    LettersAlike(options, posix, rest[0][pos], |after| == 0);
    assert b.BadArg() == m.BadArg();
    assert ReadOption(b, rest, pos) == ReadShort(b, rest, pos) && ReadOption(m, rest, pos) == ReadMingwShort(m, rest, pos);
    match Classify(b, rest[0][pos], |after| == 0)
    case TakesArgument(_) =>
    case Plain =>
    case Illegal =>
    case Dash => NoDash(b, rest[0][pos], |after| == 0);
    case LongFollows =>
  }

  lemma NoDash(b: Config, c: char, last: bool)
    requires c != '-'
    ensures !Classify(b, c, last).Dash?
  {
  }

  // The state a call starts from is inside a plain argument, if in any.
  predicate PlainPlace(rest: seq<string>, pos: nat) {
    pos > 0 ==> |rest| > 0 && pos < |rest[0]| && !IsOperand(rest[0]) && !IsMarker(rest[0])
  }

  lemma {:induction false} NextAlike(options: string, posix: bool, rest: seq<string>, pos: nat)
    requires PlainVector(rest) && PlainPlace(rest, pos)
    ensures Alike(Next(OnBsd(options, posix), rest, pos), Next(OnMingw(options, posix), rest, pos))
    decreases rest
  {
    hide ReadOption;
    var b, m := OnBsd(options, posix), OnMingw(options, posix);
    assert b.Operands() == m.Operands();
    if pos > 0 {
      assert PlainArgument(rest[0]);
      OptionsAlike(options, posix, rest, pos);
    } else if |rest| > 0 {
      if IsOperand(rest[0]) {
        NextAlike(options, posix, rest[1..], 0);
      } else if !IsMarker(rest[0]) {
        assert PlainArgument(rest[0]);
        OptionsAlike(options, posix, rest, 1);
      }
    }
  }

  // The place after a call that ends inside a cluster.
  lemma {:induction false} PlaceStaysPlain(cfg: Config, rest: seq<string>, pos: nat)
    requires cfg.Valid() && PlainVector(rest) && PlainPlace(rest, pos)
    ensures var c := Next(cfg, rest, pos);
      c.skip + c.take <= |rest| && PlainVector(After(rest, c)) && PlainPlace(After(rest, c), c.pos)
    decreases rest
  {
    hide ReadOption;
    NextShape(cfg, rest, pos);
    if pos > 0 {
      ReadOptionShape(cfg, rest, pos);
    } else if |rest| > 0 {
      if IsOperand(rest[0]) {
        PlaceStaysPlain(cfg, rest[1..], 0);
        var n := Next(cfg, rest[1..], 0);
        assert rest[1..][n.skip + n.take..] == rest[1 + n.skip + n.take..];
      } else if !IsMarker(rest[0]) {
        ReadOptionShape(cfg, rest, 1);
      }
    }
  }

  // A whole scan: the same return values, and the same vector left behind.
  lemma {:induction false} ScansAlike(options: string, posix: bool, rest: seq<string>, pos: nat)
    requires PlainVector(rest) && PlainPlace(rest, pos)
    ensures var b, m := OnBsd(options, posix), OnMingw(options, posix);
      var t, u := Run(b, rest, pos), Run(m, rest, pos);
      |t| == |u| && (forall i :: 0 <= i < |t| ==> Alike(t[i], u[i])) &&
      Taken(b, rest, pos) == Taken(m, rest, pos) && Skipped(b, rest, pos) == Skipped(m, rest, pos) &&
      Unscanned(b, rest, pos) == Unscanned(m, rest, pos)
    decreases |rest|, CharsLeft(rest, pos)
  {
    hide Next, Run, Taken, Skipped, Unscanned, CharsLeft;
    var b, m := OnBsd(options, posix), OnMingw(options, posix);
    NextAlike(options, posix, rest, pos);
    CallProgress(b, rest, pos);
    PlaceStaysPlain(b, rest, pos);
    var c := Next(b, rest, pos);
    if c.stop.None? {
      ScansAlike(options, posix, After(rest, c), c.pos);
      Unroll(b, rest, pos);
      Unroll(m, rest, pos);
    } else {
      UnrollLast(b, rest, pos);
      UnrollLast(m, rest, pos);
    }
  }
}
