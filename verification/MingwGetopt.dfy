// The scan of src-fdk-aac/win32/getopt.h with its static state.  It moves
// arguments later than the other engine, and in another way, but answers and
// vector come out as the same read-only scanner says.
module MingwGetopt {
  import opened OptionTable
  import opened OptionScanner
  import opened OptionRuns
  import opened ScanView
  import opened Rotation

  // ------------------------------------------------- moving the arguments

  // Lines 628-629: copies of the arguments of the current option.
  method Save(arglist: array<string>, optmark: nat, optspan: nat) returns (thisArg: array<string>)
    requires optmark + optspan <= arglist.Length
    ensures fresh(thisArg) && thisArg[..] == arglist[..][optmark..optmark + optspan]
  {
    thisArg := new string[optspan];
    for index := 0 to optspan
      invariant thisArg[..index] == arglist[optmark..optmark + index]
    {
      thisArg[index] := arglist[optmark + index];
    }
    assert arglist[..][optmark..optmark + optspan] == arglist[optmark..optmark + optspan];
  }

  // Lines 635-636: the operands before them move to the right.
  method Shift(arglist: array<string>, optbase: nat, optmark: nat, optspan: nat)
    requires optbase < optmark && optmark + optspan <= arglist.Length && optspan > 0
    modifies arglist
    ensures arglist[..] == Shifted(old(arglist[..]), optbase, optmark, optspan)
  {
    ghost var s := arglist[..];
    var mark := optmark - 1;
    while mark >= optbase
      invariant optbase - 1 <= mark < optmark
      invariant forall k :: mark + optspan < k < optmark + optspan ==> arglist[k] == s[k - optspan]
      invariant forall k :: 0 <= k <= mark + optspan || optmark + optspan <= k < arglist.Length ==> arglist[k] == s[k]
    {
      arglist[mark + optspan] := arglist[mark];
      mark := mark - 1;
    }
  }

  function Shifted(s: seq<string>, optbase: nat, optmark: nat, optspan: nat): seq<string>
    requires optbase < optmark && optmark + optspan <= |s|
  {
    s[..optbase + optspan] + s[optbase..optmark] + s[optmark + optspan..]
  }

  // Lines 641-642: the copies come back in front.
  method Restore(arglist: array<string>, thisArg: array<string>, optbase: nat)
    requires optbase + thisArg.Length <= arglist.Length && thisArg != arglist
    modifies arglist
    ensures arglist[..] == old(arglist[..])[..optbase] + thisArg[..] + old(arglist[..])[optbase + thisArg.Length..]
  {
    ghost var s, w := arglist[..], thisArg[..];
    for index := 0 to thisArg.Length
      invariant thisArg[..] == w
      invariant arglist[..] == s[..optbase] + w[..index] + s[optbase + index..]
    {
      RestoreOne(s, w, optbase, index);
      arglist[optbase + index] := thisArg[index];
    }
  }

  lemma RestoreOne(s: seq<string>, w: seq<string>, base: nat, i: nat)
    requires i < |w| && base + |w| <= |s|
    ensures (s[..base] + w[..i] + s[base + i..])[base + i := w[i]] == s[..base] + w[..i + 1] + s[base + i + 1..]
  {
  }

  // Lines 613-642: the arguments [optmark, argind] go in front of the operands
  // [optbase, optmark), as permute_args would move them.
  method SaveShiftRestore(arglist: array<string>, optbase: nat, optmark: nat, argind: nat)
    requires optbase < optmark <= argind < arglist.Length
    modifies arglist
    ensures arglist[..] == Exchange(old(arglist[..]), optbase, optmark, argind + 1)
  {
    hide Shifted, Exchange;
    ghost var s := arglist[..];
    var optspan := argind - optmark + 1;
    var thisArg := Save(arglist, optmark, optspan);
    Shift(arglist, optbase, optmark, optspan);
    Restore(arglist, thisArg, optbase);
    RestoreShifted(s, optbase, optmark, optspan);
  }

  lemma RestoreShifted(s: seq<string>, optbase: nat, optmark: nat, optspan: nat)
    requires optbase < optmark && optmark + optspan <= |s|
    ensures var t := Shifted(s, optbase, optmark, optspan);
      t[..optbase] + s[optmark..optmark + optspan] + t[optbase + optspan..] ==
        Exchange(s, optbase, optmark, optmark + optspan)
  {
  }

  // Lines 694-704: the marker goes in front of the operands.  The loop also
  // copies the argument before them, which is then overwritten.
  method RotateMarker(arglist: array<string>, optbase: nat, optmark: nat)
    requires 1 <= optbase < optmark < arglist.Length
    modifies arglist
    ensures arglist[..] == Exchange(old(arglist[..]), optbase, optmark, optmark + 1)
  {
    ghost var s := arglist[..];
    var thisArg := arglist[optmark];
    var mark, more := optmark, true;
    while more
      invariant optbase - 1 <= mark <= optmark && (more <==> mark >= optbase)
      invariant arglist[..] == s[..mark + 1] + s[mark..optmark] + s[optmark + 1..]
      decreases mark
    {
      MoveOne(s, mark, optmark);
      arglist[mark] := arglist[mark - 1];
      more := mark > optbase;
      mark := mark - 1;
    }
    MarkerBack(s, optbase, optmark);
    arglist[optbase] := thisArg;
  }

  lemma MoveOne(s: seq<string>, mark: nat, optmark: nat)
    requires 1 <= mark <= optmark < |s|
    ensures var a := s[..mark + 1] + s[mark..optmark] + s[optmark + 1..];
      |a| == |s| && a[mark := a[mark - 1]] == s[..mark] + s[mark - 1..optmark] + s[optmark + 1..]
  {
  }

  lemma MarkerBack(s: seq<string>, optbase: nat, optmark: nat)
    requires 1 <= optbase < optmark < |s|
    ensures var a := s[..optbase] + s[optbase - 1..optmark] + s[optmark + 1..];
      |a| == |s| && a[optbase := s[optmark]] == Exchange(s, optbase, optmark, optmark + 1)
  {
  }

  // ------------------------------------------------------ long option names

  // getopt_match_long: lines 320-362.
  method MatchLong(text: string, name: string) returns (l: Likeness)
    ensures l == Compare(text, name)
  {
    var i := 0;
    while i < |text| && i < |name| && text[i] == name[i]
      invariant 0 <= i <= |text| && i <= |name|
      invariant Compare(text, name) == Compare(text[i..], name[i..])
    {
      i := i + 1;
    }
    if i < |text| {
      if text[i] != '=' {
        return Unlike;
      }
      l := if i < |name| then Abbreviates(Some(text[i + 1..])) else Equals(Some(text[i + 1..]));
    } else {
      l := if i < |name| then Abbreviates(None) else Equals(None);
    }
  }

  // The search of lines 744-798; optarg is set on the way.
  method FindLong(table: seq<LongOption>, text: string) returns (r: Resolution)
    ensures r == Resolve(table, text, 0, None, None)
  {
    hide Compare;
    var optarg: Option<string> := None;
    var matched: Option<nat> := None;
    var lookup := 0;
    while lookup < |table|
      invariant 0 <= lookup <= |table| && (matched.Some? ==> matched.value < lookup)
      invariant Resolve(table, text, 0, None, None) == Resolve(table, text, lookup, matched, optarg)
    {
      var l := MatchLong(text, table[lookup].name);
      if !l.Unlike? && l.value.Some? {
        optarg := l.value;
      }
      if l.Equals? {
        return Resolved(lookup, optarg);
      }
      if l.Abbreviates? {
        if matched.Some? {
          return Ambiguity(optarg);
        }
        matched := Some(lookup);
      }
      lookup := lookup + 1;
    }
    r := if matched.Some? then Resolved(matched.value, optarg) else Unmatched;
  }

  // ------------------------------------------------------------- the scan

  class GetoptParser {
    var optind: int
    var optopt: int
    var optreset: bool
    var optarg: Option<string>
    var longIndex: Option<nat>      // what index points to
    var flags: map<nat, int>        // the cells that flag pointers name
    var conventions: Option<bool>   // once set: is operand order kept?
    var argind: nat
    var optbase: nat
    var optmark: int
    var nextchar: Cursor            // at the end of its text if NULL
    ghost var done: bool            // the last call returned -1

    constructor ()
      ensures optind == 1 && !optreset && argind == 0 && optbase == 0 && optmark == 0
      ensures nextchar.AtEnd() && !done && conventions == None
      ensures forall options :: KeepsOrder(options) <==> |options| > 0 && options[0] == '+'
    {
      optind, optopt, optreset, optarg := 1, '?' as int, false, None;
      longIndex, flags, conventions := None, map[], None;
      argind, optbase, optmark, nextchar, done := 0, 0, 0, Cursor("", 0), false;
    }

    // ----------------------------------------------------- the abstract state

    predicate InCluster()
      reads this
    {
      !nextchar.AtEnd()
    }

    // The first argument not taken yet.
    function Scanned(): nat
      reads this
    {
      if InCluster() then argind else argind + 1
    }

    ghost function Pos(): nat
      reads this
    {
      if InCluster() then nextchar.pos else 0
    }

    // The next call starts a new scan, at Start().
    ghost predicate Restarts()
      reads this
    {
      optreset || optind < 1 || optind < optbase
    }

    ghost function Start(): nat
      reads this
    {
      if optreset || optind < 1 then 1 else optind
    }

    // Between two calls: consumed options before optbase, skipped operands in
    // [optbase, optmark), the last option with its argument up to argind.
    ghost predicate Shape(argv: array<string>)
      reads this, argv
    {
      !optreset && 1 <= optind && optbase <= optind <= argind + 1 &&
      optbase <= optmark <= argind < argv.Length &&
      (optind == Scanned() || (argind + 1 == argv.Length && !InCluster())) &&
      (InCluster() ==> nextchar.text == argv[argind] && nextchar.pos >= 2 && optmark == argind)
    }

    // After -1 the options end at optbase.
    ghost predicate Finished(argv: array<string>)
      reads this, argv
    {
      done && !optreset && 1 <= optind == optbase <= argv.Length
    }

    ghost predicate Valid(argv: array<string>)
      reads this, argv
    {
      Finished(argv) || (!done && Shape(argv))
    }

    // A scan that has ended is not continued, only started again.
    ghost predicate Callable(argv: array<string>)
      reads this, argv
    {
      if Restarts() then Start() <= argv.Length else !done && Shape(argv)
    }

    ghost function Now(argv: array<string>): View
      requires Callable(argv) || Valid(argv)
      reads this, argv
    {
      if Callable(argv) && Restarts() then ViewOf(argv[..], Start(), Start(), Start(), 0)
      else if Finished(argv) then ViewOf(argv[..], optbase, optbase, optbase, 0)
      else if optmark > optbase then ViewOf(argv[..], optbase, optmark, Scanned(), Pos())
      else ViewOf(argv[..], Scanned(), Scanned(), Scanned(), Pos())
    }

    // The effect of POSIXLY_CORRECT or "+" is fixed by the first operand met.
    function KeepsOrder(options: string): bool
      reads this
    {
      if conventions.Some? then conventions.value else |options| > 0 && options[0] == '+'
    }

    // Once fixed, the conventions hold for every option string.
    lemma ConventionsKept(options: string)
      ensures conventions.Some? ==> KeepsOrder(options) == conventions.value
      ensures conventions == None ==> (KeepsOrder(options) <==> |options| > 0 && options[0] == '+')
    {
    }

    // What a call leaves in the variables the caller reads.
    ghost predicate Shows(cfg: Config, a: Answer, oldArg: Option<string>, oldOptopt: int, oldIndex: Option<nat>,
                          oldFlags: map<nat, int>)
      reads this
    {
      optarg == (if a.keeps then oldArg else a.optarg) && optopt == (if a.optopt.Some? then a.optopt.value else oldOptopt) &&
      longIndex == (if a.longIndex.Some? then a.longIndex else oldIndex) &&
      flags == Store(oldFlags, cfg, a)
    }

    // In other words.
    lemma ShowsAll(cfg: Config, a: Answer, oldArg: Option<string>, oldOptopt: int, oldIndex: Option<nat>,
                   oldFlags: map<nat, int>)
      requires Shows(cfg, a, oldArg, oldOptopt, oldIndex, oldFlags)
      ensures optarg == (if a.keeps then oldArg else a.optarg) && flags == Store(oldFlags, cfg, a)
      ensures a.optopt.Some? ==> optopt == a.optopt.value
      ensures a.optopt.None? ==> optopt == oldOptopt
      ensures a.longIndex.Some? ==> longIndex == a.longIndex
      ensures a.longIndex.None? ==> longIndex == oldIndex
    {
    }

    // ----------------------------------------------------------- the program

    // Lines 543-584: a letter that takes an argument; nextchar is behind it.
    method ParseArgument(argv: array<string>, cfg: Config, c: char, optional: bool) returns (r: int)
      requires argind < argv.Length && optopt == c as int
      modifies this`optind, this`optarg, this`argind, this`nextchar
      ensures var d := ReadMingwArgument(cfg, old(argv[argind..]), c, old(nextchar.Text()), optional);
        r == d.answer.ret && optarg == d.answer.optarg && !InCluster() &&
        argind + 1 == old(argind) + d.take <= argv.Length &&
        optind == (if d.missing then old(optind) else argind + 1)
    {
      optarg := Some(nextchar.Text());
      if nextchar.AtEnd() {
        if optional {
          optarg := None;
        } else if argv.Length - argind > 1 {
          argind := argind + 1;
          optarg := Some(argv[argind]);
        } else {
          return cfg.BadArg();
        }
      }
      optind := argind + 1;
      nextchar := Cursor("", 0);
      optind := if InCluster() then argind else argind + 1;
      r := optopt;
    }

    // Lines 534-599: the letter at nextchar.
    method ParseShort(argv: array<string>, cfg: Config) returns (r: int)
      requires |MingwLetters(cfg)| > 0 && argind < argv.Length
      requires InCluster() && nextchar.text == argv[argind]
      modifies this`optind, this`optopt, this`optarg, this`argind, this`nextchar
      ensures var c := ReadMingwShort(cfg, old(argv[argind..]), old(nextchar.pos));
        r == c.answer.ret && Shows(cfg, c.answer, old(optarg), old(optopt), old(longIndex), old(flags)) &&
        Scanned() == old(argind) + c.take && old(argind) <= argind < argv.Length &&
        (if c.pos > 0 then nextchar == Cursor(old(nextchar.text), c.pos) && argind == old(argind) else !InCluster()) &&
        optind == (if c.missing then old(optind) else Scanned())
    {
      hide ReadMingwShort, ReadMingwArgument, MingwClassify, IndexOf, Store;
      ghost var rest := argv[argind..];
      ghost var after := rest[0][nextchar.pos + 1..];
      NoRow(flags, cfg, rest, nextchar.pos);
      ShortCases(cfg, rest, nextchar.pos);
      var c := nextchar.Char();
      optopt := c as int;
      nextchar := nextchar.Advance();
      assert nextchar.Text() == after && (nextchar.AtEnd() <==> |after| == 0);
      // getopt_match, with the characters behind the letter it finds
      var kind := MingwClassify(cfg, c);
      if kind.TakesArgument? {
        ArgumentRead(cfg, rest, c, after, kind.optional);
        r := ParseArgument(argv, cfg, c, kind.optional);
        return;
      }
      r := PassLetter(kind.Plain?);
    }

    // Lines 581-598: a letter without an argument, or one that is not valid.
    method PassLetter(valid: bool) returns (r: int)
      modifies this`optind, this`optarg
      ensures r == (if valid then optopt else BAD_CHAR) && optarg == (if valid then None else old(optarg))
      ensures optind == Scanned()
    {
      optind := if InCluster() then argind else argind + 1;
      if valid {
        optarg := None;
        return optopt;
      }
      r := BAD_CHAR;
    }

    // getopt_resolved: lines 364-420.
    method FinishLong(argv: array<string>, cfg: Config, row: nat) returns (r: int)
      requires cfg.longOptions.Some? && row < |cfg.longOptions.value| && argind < argv.Length
      modifies this`optind, this`optopt, this`optarg, this`argind, this`longIndex, this`flags
      ensures var c := ReadResolved(cfg, old(argv[argind..]), row, old(optarg));
        r == c.answer.ret && Shows(cfg, c.answer, None, old(optopt), old(longIndex), old(flags)) &&
        argind + 1 == old(argind) + c.take <= argv.Length && optind == argind + 1
    {
      var o := cfg.longOptions.value[row];
      longIndex := Some(row);
      optind := argind + 1;
      if optarg.Some? && o.hasArg == NoArgument {
        optopt := o.val;
        return BAD_CHAR;
      } else if optarg == None && o.hasArg == RequiredArgument {
        if optind < argv.Length {
          argind := optind;
          optind := optind + 1;
          optarg := Some(argv[argind]);
        } else {
          optopt := o.val;
          return cfg.BadArg();
        }
      }
      if o.flag.Some? {
        flags := flags[o.flag.value := o.val];
        return 0;
      }
      r := o.val;
    }

    // Lines 721-828: the text behind "--".
    method ParseLong(argv: array<string>, cfg: Config) returns (r: int)
      requires cfg.longOptions.Some? && argind < argv.Length
      modifies this`optind, this`optopt, this`optarg, this`argind, this`nextchar, this`longIndex, this`flags
      ensures var c := ReadMingwLong(cfg, old(argv[argind..]), old(nextchar.Text()));
        r == c.answer.ret && Shows(cfg, c.answer, old(optarg), old(optopt), old(longIndex), old(flags)) &&
        argind + 1 == old(argind) + c.take <= argv.Length && optind == argind + 1 && !InCluster()
    {
      hide ReadResolved;
      LongReplaces(cfg, argv[argind..], nextchar.Text());
      var found := FindLong(cfg.longOptions.value, nextchar.Text());
      nextchar := Cursor("", 0);
      match found
      case Resolved(row, value) =>
        optarg := value;
        r := FinishLong(argv, cfg, row);
      case Ambiguity(value) =>
        optarg, optopt, optind := value, 0, argind + 1;
        r := BAD_CHAR;
      case Unmatched =>
        optarg, optopt, optind := None, 0, argind + 1;
        r := BAD_CHAR;
    }

    // ------------------------------------------------- one call, in the vector

    // While a call looks for an option: options before optbase, operands up to
    // argind.
    ghost predicate Looking(argv: array<string>)
      reads this, argv
    {
      !done && !optreset && 1 <= optind <= argind + 1 <= argv.Length && 1 <= optbase <= argind + 1 &&
      (optbase <= optind || argind + 1 == argv.Length)
    }

    ghost function Held(argv: array<string>): View
      requires Looking(argv)
      reads this, argv
    {
      ViewOf(argv[..], optbase, argind + 1, argind + 1, 0)
    }

    // nextchar is inside the argument at argind.
    ghost predicate AtOption(argv: array<string>)
      reads this, argv
    {
      !done && !optreset && 1 <= optind && optbase <= optind <= argind && optbase <= optmark == argind < argv.Length &&
      InCluster() && nextchar.text == argv[argind] && nextchar.pos >= 1
    }

    ghost function Here(argv: array<string>): View
      requires AtOption(argv)
      reads this, argv
    {
      ViewOf(argv[..], optbase, optmark, argind, nextchar.pos)
    }

    // Lines 475-507.  A caller that moved optind forward is not part of this
    // model.
    method Begin(argv: array<string>)
      requires Callable(argv)
      modifies this`optind, this`optreset, this`optmark, this`optbase, this`argind, this`nextchar, this`done
      ensures !done && Shape(argv) && Now(argv) == old(Now(argv))
    {
      if optreset || optind < 1 || optind < optbase {
        if optreset || optind < 1 {
          optind, optreset := 1, false;
        }
        argind := optind - 1;
        optmark, optbase, nextchar := argind, argind, Cursor("", 0);
      }
      done := false;
    }

    // Lines 601-655: the last option joins those before optbase.
    method Relocate(argv: array<string>)
      requires !done && Shape(argv) && !InCluster()
      modifies this`optbase, this`optmark, argv
      ensures Looking(argv) && Held(argv) == old(Now(argv)) && optbase + |Held(argv).skipped| == argind + 1
    {
      hide ViewOf, Exchange;
      ghost var v := Now(argv);
      if optmark > optbase {
        ghost var a := argv[..];
        SaveShiftRestore(argv, optbase, optmark, argind);
        ExchangedView(a, optbase, optmark, argind + 1);
        Regrouped(argv[..], v);
        optbase, optmark := optbase + (argind - optmark + 1), optbase - 1;
      } else {
        optbase := argind + 1;
      }
    }

    // Lines 689-705: the marker at argind, if operands stand before it.
    method MoveMarker(argv: array<string>)
      requires 1 <= optbase <= optmark == argind < argv.Length
      modifies this`optmark, argv
      ensures argv[..] == Exchange(old(argv[..]), optbase, argind, argind + 1)
    {
      if optmark > optbase {
        RotateMarker(argv, optbase, optmark);
        optmark := optbase - 1;
      } else {
        NothingMoves(argv[..], optbase);
      }
    }

    // Lines 685-711.
    method FinishAtMarker(argv: array<string>)
      requires Looking(argv) && argind + 1 < argv.Length && IsMarker(argv[argind + 1])
      modifies this`argind, this`optmark, this`optbase, this`optind, this`done, argv
      ensures Finished(argv) && Now(argv) == Advance(old(Held(argv)), Finish(1, Marker))
    {
      hide Advance, ViewOf, Exchange;
      MarkerView(argv[..], optbase, argind + 1);
      argind := argind + 1;
      optmark := argind;
      MoveMarker(argv);
      optbase := optbase + 1;
      optind, done := optbase, true;
    }

    // Lines 865-866: the end of the vector, or an operand that stops the scan;
    // argind is behind the operands.
    method FinishHere(argv: array<string>)
      requires 1 <= optbase <= argind <= argv.Length && !optreset
      modifies this`optind, this`done
      ensures Finished(argv) && optbase == old(optbase)
    {
      optind, done := optbase, true;
    }

    // Lines 838-861: the operand at argind.
    method AtOperand(argv: array<string>, cfg: Config) returns (outcome: Outcome)
      requires cfg.IsMingw() && cfg.posixlyCorrect == KeepsOrder(cfg.options)
      requires Looking(argv) && argind + 1 < argv.Length && IsOperand(argv[argind + 1])
      requires cfg.Operands() == Permute || optbase == argind + 1
      modifies this`argind, this`optmark, this`nextchar, this`optind, this`optarg, this`conventions, this`done
      ensures conventions == if cfg.Operands() == ReturnInOrder then old(conventions) else Some(cfg.posixlyCorrect)
      ensures var v := old(Held(argv));
        match cfg.Operands()
        case ReturnInOrder =>
          outcome == Stopped(IN_ORDER) && optarg == Some(v.rest[0]) && !done && Shape(argv) && optind == Scanned() &&
          Now(argv) == Advance(v, Read(1, 0, IN_ORDER, Some(v.rest[0]), None))
        case StopAtFirst =>
          outcome == Stopped(DONE) && optarg == old(optarg) && Finished(argv) &&
          Now(argv) == Advance(v, Stops(cfg, 0, OptionScanner.AtOperand))
        case Permute =>
          outcome == Passed && optarg == old(optarg) && Looking(argv) && Held(argv) == SkipOne(v) &&
          argind == old(argind) + 1
    {
      hide Advance, SkipOne, ViewOf;
      ghost var v := Held(argv);
      argind := argind + 1;
      optmark, nextchar := argind, Cursor(argv[argind], 0);
      if |cfg.options| > 0 && cfg.options[0] == '-' {
        TakeSome(argv[..], optbase, optbase, argind, 0, Read(1, 0, IN_ORDER, Some(v.rest[0]), None));
        nextchar := Cursor("", 0);
        optind := argind + 1;
        optarg := Some(argv[argind]);
        return Stopped(IN_ORDER);
      }
      conventions := Some(KeepsOrder(cfg.options));
      if conventions.value {
        TakeSome(argv[..], optbase, optbase, argind, 0, Stops(cfg, 0, OptionScanner.AtOperand));
        FinishHere(argv);
        return Stopped(DONE);
      }
      GrowBlock(argv[..], optbase, argind);
      outcome := Passed;
    }

    // One turn of the loop of lines 659-862, up to an option.
    method Inspect(argv: array<string>, cfg: Config) returns (outcome: Outcome)
      requires cfg.IsMingw() && cfg.posixlyCorrect == KeepsOrder(cfg.options)
      requires Looking(argv) && (cfg.Operands() == Permute || optbase == argind + 1)
      modifies this`argind, this`optmark, this`optbase, this`nextchar, this`optind, this`optarg, this`conventions
      modifies this`done, argv
      ensures outcome.Stopped? ==> Valid(argv) && !optreset && (!done ==> optind == Scanned())
      ensures outcome.Found? ==> AtOption(argv) && nextchar.pos == 1
      ensures var v := old(Held(argv));
        match outcome
        case Passed =>
          |v.rest| > 0 && IsOperand(v.rest[0]) && cfg.Operands() == Permute && optarg == old(optarg) &&
          Looking(argv) && argind == old(argind) + 1 && Held(argv) == SkipOne(v) &&
          conventions == Some(cfg.posixlyCorrect)
        case Stopped(r) =>
          var c := Next(cfg, v.rest, 0);
          r == c.answer.ret && (done <==> c.stop.Some?) && optarg == (if c.answer.keeps then old(optarg) else c.answer.optarg) &&
          c.answer.optopt == None && c.answer.longIndex == None &&
          c.skip + c.take <= |v.rest| && c.skip == 0 && Now(argv) == Advance(v, c) &&
          conventions == (if c.stop == Some(OptionScanner.AtOperand) then Some(cfg.posixlyCorrect) else old(conventions))
        case Found =>
          conventions == old(conventions) &&
          |v.rest| > 0 && IsOptionArgument(v.rest[0]) && optarg == old(optarg) && Here(argv) == v.(pos := 1)
    {
      hide Next, ReadOption, Advance, SkipOne, ViewOf;
      ghost var v := Held(argv);
      NextUnfolds(cfg, v.rest);
      if argv.Length <= argind + 1 {
        argind := argind + 1;
        AdvanceToEnd(v, 0, EndOfVector);
        StopsAlike(cfg, v, 0, EndOfVector);
        assert v.taken + v.rest[..0] == v.taken && v.rest[0..] == v.rest;
        DropBlock(argv[..], optbase, argind, 0);
        FinishHere(argv);
        return Stopped(DONE);
      }
      var text := argv[argind + 1];
      assert text == v.rest[0];
      if |text| < 2 || text[0] != '-' {
        outcome := AtOperand(argv, cfg);
        return;
      }
      if text[1] == '-' && |text| == 2 {
        StopsAlike(cfg, v, 1, Marker);
        FinishAtMarker(argv);
        return Stopped(DONE);
      }
      PlaceOnly(argv[..], optbase, argind + 1, argind + 1);
      argind := argind + 1;
      optmark, nextchar := argind, Cursor(text, 1);
      outcome := Found;
    }

    // The loop of lines 659-862.  When it finds an option, what the call is to
    // do is what reading that option does.
    method FindOption(argv: array<string>, cfg: Config) returns (outcome: Outcome)
      requires cfg.IsMingw() && cfg.posixlyCorrect == KeepsOrder(cfg.options)
      requires Looking(argv) && (cfg.Operands() == Permute || optbase == argind + 1)
      modifies this`argind, this`optmark, this`optbase, this`nextchar, this`optind, this`optarg, this`conventions
      modifies this`done, argv
      ensures !outcome.Passed?
      ensures outcome.Stopped? ==> Valid(argv) && !optreset && (!done ==> optind == Scanned())
      ensures outcome.Found? ==> AtOption(argv) && nextchar.pos == 1
      ensures var v := old(Held(argv));
        var c := Next(cfg, v.rest, 0);
        c.skip + c.take <= |v.rest| &&
        (conventions == if c.skip > 0 || c.stop == Some(OptionScanner.AtOperand) then Some(cfg.posixlyCorrect)
                        else old(conventions)) &&
        if outcome.Stopped? then
          outcome.r == c.answer.ret && (done <==> c.stop.Some?) && Now(argv) == Advance(v, c) &&
          optarg == (if c.answer.keeps then old(optarg) else c.answer.optarg) &&
          c.answer.optopt == None && c.answer.longIndex == None
        else
          var w := Here(argv);
          |w.rest| > 0 && IsOptionArgument(w.rest[0]) && w.pos == 1 && optarg == old(optarg) &&
          var d := ReadOption(cfg, w.rest, 1);
          d.skip + d.take <= |w.rest| && d.answer == c.answer && Advance(w, d) == Advance(v, c) &&
          d.stop == c.stop && d.missing == c.missing
    {
      hide Next, ReadOption, Advance, ViewOf;
      ghost var v := Held(argv);
      ghost var c := Next(cfg, v.rest, 0);
      CallProgress(cfg, v.rest, 0);
      ghost var w := v;
      outcome := Passed;
      while outcome.Passed?
        invariant SameCall(cfg, v, w) && |w.skipped| >= |v.skipped|
        invariant !outcome.Stopped? ==>
          conventions == if |w.skipped| > |v.skipped| then Some(cfg.posixlyCorrect) else old(conventions)
        invariant outcome.Passed? ==>
          Looking(argv) && w == Held(argv) && optarg == old(optarg) &&
          (cfg.Operands() == Permute || optbase == argind + 1)
        invariant outcome.Stopped? ==>
          var d := Next(cfg, w.rest, 0);
          d.skip == 0 &&
          (conventions == if |w.skipped| > |v.skipped| || d.stop == Some(OptionScanner.AtOperand) then Some(cfg.posixlyCorrect)
                          else old(conventions)) &&
          Valid(argv) && !optreset && (!done ==> optind == Scanned()) && outcome.r == d.answer.ret && (done <==> d.stop.Some?) &&
          optarg == (if d.answer.keeps then old(optarg) else d.answer.optarg) &&
          d.answer.optopt == None && d.answer.longIndex == None &&
          d.skip + d.take <= |w.rest| && Now(argv) == Advance(w, d)
        invariant outcome.Found? ==>
          AtOption(argv) && nextchar.pos == 1 && |w.rest| > 0 && IsOptionArgument(w.rest[0]) &&
          optarg == old(optarg) && Here(argv) == w.(pos := 1)
        decreases outcome.Passed?, argv.Length - argind
      {
        ConventionsKept(cfg.options);
        outcome := Inspect(argv, cfg);
        if outcome.Passed? {
          SameCallSkip(cfg, v, w);
          w := SkipOne(w);
        }
      }
      if outcome.Found? {
        FoundOption(cfg, v, w);
        OnlyStrayDash(cfg, w.rest, 1);
      }
    }

    // The option at nextchar, with what it means for the vector.
    method TakeOption(argv: array<string>, cfg: Config) returns (r: int)
      requires cfg.IsMingw() && |MingwLetters(cfg)| > 0 && AtOption(argv)
      modifies this`optind, this`optopt, this`optarg, this`argind, this`nextchar, this`longIndex, this`flags
      ensures !done && Shape(argv)
      ensures var v := old(Here(argv));
        |v.rest| > 0 && v.pos < |v.rest[0]| &&
        var c := ReadOption(cfg, v.rest, v.pos);
        c.skip + c.take <= |v.rest| && Now(argv) == Advance(v, c) && c.stop == None &&
        r == c.answer.ret && Shows(cfg, c.answer, old(optarg), old(optopt), old(longIndex), old(flags)) &&
        (!c.missing ==> optind == Scanned())
    {
      hide ReadMingwLong, ReadMingwShort, Advance, ViewOf, Shows, IsOperand, IsMarker;
      ghost var v := Here(argv);
      assert v.rest[0] == argv[argind];
      ghost var c := ReadOption(cfg, v.rest, v.pos);
      ReadOptionShape(cfg, v.rest, v.pos);
      OnlyStrayDash(cfg, v.rest, v.pos);
      TakeSome(argv[..], optbase, optmark, argind, v.pos, c);
      if cfg.longOptions.Some? && nextchar.pos == 1 && nextchar.Char() == '-' {
        nextchar := nextchar.Advance();
        assert nextchar.Text() == v.rest[0][2..];
        ReadMingwLongShape(cfg, v.rest, v.rest[0][2..]);
        r := ParseLong(argv, cfg);
      } else {
        r := ParseShort(argv, cfg);
      }
      assert Scanned() == old(argind) + c.take && Pos() == c.pos && optbase <= optmark <= argind;
      assert c.missing ==> argind + 1 == argv.Length;
      assert InCluster() ==> nextchar.pos >= 2 && argind == old(argind);
    }

    // One call.
    method GetoptParse(argv: array<string>, cfg: Config) returns (r: int)
      requires cfg.IsMingw() && |MingwLetters(cfg)| > 0 && cfg.posixlyCorrect == KeepsOrder(cfg.options)
      requires Callable(argv) && (Now(argv).skipped == [] || cfg.Operands() == Permute)
      modifies this, argv
      ensures if done then Finished(argv) else Shape(argv) && Callable(argv)
      ensures !Restarts() && cfg.posixlyCorrect == KeepsOrder(cfg.options) && (done <==> r == DONE)
      ensures var v := old(Now(argv));
        Scanning(v.rest, v.pos) &&
        var c := Next(cfg, v.rest, v.pos);
        c.skip + c.take <= |v.rest| && Now(argv) == Advance(v, c) && (done <==> c.stop.Some?) &&
        r == c.answer.ret && Shows(cfg, c.answer, old(optarg), old(optopt), old(longIndex), old(flags)) &&
        (!done && !c.missing ==> optind == Scanned()) &&
        (conventions == if c.skip > 0 || c.stop == Some(OptionScanner.AtOperand) then Some(cfg.posixlyCorrect)
                        else old(conventions))
    {
      hide Next, ReadOption, Advance, ViewOf, Now, Here, Held;
      Begin(argv);
      ghost var v := Now(argv);
      CallableScans(argv);
      NextShape(cfg, v.rest, v.pos);
      if InCluster() {
        Inside(argv);
        NextInside(cfg, v.rest, v.pos);
      } else {
        Relocate(argv);
        var outcome := FindOption(argv, cfg);
        if outcome.Stopped? {
          return outcome.r;
        }
      }
      ReadOptionShape(cfg, Here(argv).rest, Here(argv).pos);
      r := TakeOption(argv, cfg);
    }

    // A caller's loop has seen the answers of the calls made, and what is to
    // come completes what the whole scan answers.
    ghost predicate Pending(argv: array<string>, cfg: Config, whole: View, seen: seq<(int, Option<string>)>,
                            all: seq<(int, Option<string>)>)
      reads this, argv
    {
      cfg.IsMingw() && Callable(argv) && (Now(argv).skipped == [] || cfg.Operands() == Permute) &&
      var w := Now(argv);
      Scanning(w.rest, w.pos) && WholeScan(cfg, w) == whole && seen + SeenAfter(Answers(Run(cfg, w.rest, w.pos)), optarg) == all
    }

    // One turn of that loop.
    method ScanOne(argv: array<string>, cfg: Config, seen: seq<(int, Option<string>)>, ghost whole: View,
                   ghost all: seq<(int, Option<string>)>)
      returns (ch: int)
      requires |MingwLetters(cfg)| > 0 && cfg.posixlyCorrect == KeepsOrder(cfg.options)
      requires Pending(argv, cfg, whole, seen, all)
      modifies this, argv
      ensures cfg.posixlyCorrect == KeepsOrder(cfg.options)
      ensures ch != DONE ==> Pending(argv, cfg, whole, seen + [(ch, optarg)], all) && Precedes(Now(argv), old(Now(argv)))
      ensures ch == DONE ==> Finished(argv) && seen + [(ch, optarg)] == all && Now(argv) == whole
    {
      hide Next, Advance, Now, WholeScan, Run, Answers, SeenAfter, Callable, Shape, KeepsOrder, Store;
      ghost var w := Now(argv);
      ghost var c := Next(cfg, w.rest, w.pos);
      CallProgress(cfg, w.rest, w.pos);
      OneCall(cfg, w);
      SeenFirst(Answers(Run(cfg, w.rest, w.pos)), optarg);
      SkipsWhenPermuting(cfg, w);
      ch := GetoptParse(argv, cfg);
    }

    // The loop of a caller: call until -1 (src-fdk-aac/aac-enc.c, line 59).
    method ScanAll(argv: array<string>, cfg: Config) returns (seen: seq<(int, Option<string>)>)
      requires cfg.IsMingw() && |MingwLetters(cfg)| > 0 && cfg.posixlyCorrect == KeepsOrder(cfg.options)
      requires Callable(argv) && (Now(argv).skipped == [] || cfg.Operands() == Permute)
      modifies this, argv
      ensures Finished(argv) && cfg.posixlyCorrect == KeepsOrder(cfg.options)
      ensures var v := old(Now(argv));
        Scanning(v.rest, v.pos) && seen == SeenAfter(Answers(Run(cfg, v.rest, v.pos)), old(optarg)) &&
        Now(argv) == WholeScan(cfg, v)
    {
      hide Now, WholeScan, Run, Answers, SeenAfter, Callable, Shape, Finished, KeepsOrder;
      CallableScans(argv);
      ghost var v := Now(argv);
      ghost var all := SeenAfter(Answers(Run(cfg, v.rest, v.pos)), optarg);
      seen := [];
      var ch := IN_ORDER;
      while ch != DONE
        invariant cfg.posixlyCorrect == KeepsOrder(cfg.options)
        invariant ch != DONE ==> Pending(argv, cfg, WholeScan(cfg, v), seen, all)
        invariant ch == DONE ==> Finished(argv) && seen == all && Now(argv) == WholeScan(cfg, v)
        decreases ch != DONE, if ch != DONE then |Now(argv).rest| else 0,
                  if ch != DONE then CharsLeft(Now(argv).rest, Now(argv).pos) else 0
      {
        ch := ScanOne(argv, cfg, seen, WholeScan(cfg, v), all);
        seen := seen + [(ch, optarg)];
      }
    }

    // A scan from the start and, after a reset, another one: the answers are
    // those of the first, and nothing moves any more.
    method ScanTwice(argv: array<string>, cfg: Config)
      returns (first: seq<(int, Option<string>)>, second: seq<(int, Option<string>)>)
      requires cfg.IsMingw() && |MingwLetters(cfg)| > 0 && cfg.posixlyCorrect == KeepsOrder(cfg.options)
      requires argv.Length >= 1
      modifies this, argv
      ensures var rest := old(argv[1..]);
        var answers := Answers(Run(cfg, rest, 0));
        first == SeenAfter(answers, old(optarg)) &&
        (CleanEnd(Run(cfg, rest, 0)) ==>
          (exists was :: second == SeenAfter(answers, was)) && argv[..] == [old(argv[0])] + Permuted(cfg, rest) &&
          optind == 1 + |Taken(cfg, rest, 0)|)
    {
      hide Next, Run, Taken, Skipped, Unscanned, WholeScan, SeenAfter, Answers;
      ghost var rest, name := argv[1..], argv[0];
      ghost var clean := CleanEnd(Run(cfg, rest, 0));
      optreset := true;
      FromStart(argv);
      first := ScanAll(argv, cfg);
      if clean {
        CleanScan(cfg, name, rest);
        NothingHeld(argv);
        Rescan(cfg, rest);
        CleanScan(cfg, name, Permuted(cfg, rest));
      }
      optreset := true;
      FromStart(argv);
      if clean {
        assert argv[..] == [name] + Permuted(cfg, rest);
        assert argv[0] == argv[..][0] == name && argv[1..] == argv[..][1..] == Permuted(cfg, rest);
      }
      ghost var was := optarg;
      second := ScanAll(argv, cfg);
      if clean {
        NothingHeld(argv);
        assert second == SeenAfter(Answers(Run(cfg, rest, 0)), was);
      }
    }

    lemma FromStart(argv: array<string>)
      requires optreset && argv.Length >= 1
      ensures Callable(argv) && Now(argv) == View([argv[0]], [], argv[1..], 0)
    {
    }

    lemma NothingHeld(argv: array<string>)
      requires Finished(argv)
      ensures argv[..] == Now(argv).taken + Now(argv).rest && optind == |Now(argv).taken|
    {
    }

    lemma CallableScans(argv: array<string>)
      requires Callable(argv) || Valid(argv)
      ensures Scanning(Now(argv).rest, Now(argv).pos)
      ensures !done && Shape(argv) ==> Now(argv).pos == Pos()
    {
    }

    lemma Inside(argv: array<string>)
      requires !done && Shape(argv) && InCluster()
      ensures AtOption(argv) && Here(argv) == Now(argv)
    {
    }
  }

  // The measure of a scan.
  ghost predicate Precedes(w: View, v: View) {
    Scanning(w.rest, w.pos) && Scanning(v.rest, v.pos) &&
    (|w.rest| < |v.rest| || (w.rest == v.rest && CharsLeft(w.rest, w.pos) < CharsLeft(v.rest, v.pos)))
  }

  // The return value and optarg of each call, when optarg was as given.
  function SeenAfter(answers: seq<Answer>, was: Option<string>): seq<(int, Option<string>)> {
    if |answers| == 0 then []
    else
      var now := if answers[0].keeps then was else answers[0].optarg;
      [(answers[0].ret, now)] + SeenAfter(answers[1..], now)
  }

  lemma SeenFirst(answers: seq<Answer>, was: Option<string>)
    requires |answers| > 0
    ensures var now := if answers[0].keeps then was else answers[0].optarg;
      SeenAfter(answers, was) == [(answers[0].ret, now)] + SeenAfter(answers[1..], now) &&
      (|answers| == 1 ==> SeenAfter(answers, was) == [(answers[0].ret, now)])
  {
  }

  lemma SkipsWhenPermuting(cfg: Config, v: View)
    requires cfg.Valid() && Scanning(v.rest, v.pos) && (v.skipped == [] || cfg.Operands() == Permute)
    ensures var c := Next(cfg, v.rest, v.pos);
      c.skip + c.take <= |v.rest| && (Advance(v, c).skipped == [] || cfg.Operands() == Permute)
  {
    hide Next;
    CallProgress(cfg, v.rest, v.pos);
    NextSkips(cfg, v.rest, v.pos);
  }

  // A long option never leaves optarg as it was.
  lemma LongReplaces(cfg: Config, rest: seq<string>, text: string)
    requires cfg.longOptions.Some?
    ensures !ReadMingwLong(cfg, rest, text).answer.keeps
  {
    hide Resolve;
    match Resolve(cfg.longOptions.value, text, 0, None, None)
    case Unmatched =>
    case Ambiguity(_) =>
    case Resolved(row, value) =>
  }

  lemma ShortCases(cfg: Config, rest: seq<string>, pos: nat)
    requires |rest| > 0 && pos < |rest[0]|
    ensures var c, after, d := rest[0][pos], rest[0][pos + 1..], ReadMingwShort(cfg, rest, pos);
      var kind := MingwClassify(cfg, c);
      d == if kind.TakesArgument? then ReadMingwArgument(cfg, rest, c, after, kind.optional)
           else Call(0, if |after| == 0 then 1 else 0, if |after| == 0 then 0 else pos + 1,
                     if kind.Plain? then Answer(c as int, None, Some(c as int), None, false)
                     else Answer(BAD_CHAR, None, Some(c as int), None, true),
                     false, None)
  {
  }

  lemma NoRow(flags: map<nat, int>, cfg: Config, rest: seq<string>, pos: nat)
    requires |rest| > 0 && pos < |rest[0]|
    ensures Store(flags, cfg, ReadMingwShort(cfg, rest, pos).answer) == flags
  {
    hide MingwClassify;
    match MingwClassify(cfg, rest[0][pos])
    case TakesArgument(_) =>
    case Plain =>
    case _ =>
  }

  lemma ArgumentRead(cfg: Config, rest: seq<string>, c: char, after: string, optional: bool)
    requires |rest| > 0
    ensures var d := ReadMingwArgument(cfg, rest, c, after, optional);
      d.pos == 0 && d.take >= 1 && d.answer.optopt == Some(c as int) && d.answer.longIndex == None && !d.answer.keeps
  {
  }

  lemma ExchangedView(a: seq<string>, start: nat, end: nat, i: nat)
    requires start <= end <= i <= |a|
    ensures var v := ViewOf(a, start, end, i, 0); Exchange(a, start, end, i) == v.taken + v.skipped + v.rest
  {
  }

  // The marker at i taken, when it has been put in front of the operands.
  lemma MarkerView(a: seq<string>, start: nat, i: nat)
    requires start <= i < |a|
    ensures ViewOf(Exchange(a, start, i, i + 1), start + 1, start + 1, start + 1, 0) ==
            Advance(ViewOf(a, start, i, i, 0), Finish(1, Marker))
  {
    hide Advance, ViewOf, Exchange;
    AdvanceToEnd(ViewOf(a, start, i, i, 0), 1, Marker);
    TakeOne(a, start, i, i);
    ExchangedView(a, start, i, i + 1);
    Regrouped(Exchange(a, start, i, i + 1), ViewOf(a, start, i, i + 1, 0));
  }

  lemma StopsAlike(cfg: Config, v: View, n: nat, why: Stop)
    requires n <= |v.rest|
    ensures Advance(v, Stops(cfg, n, why)) == Advance(v, Finish(n, why))
  {
  }

  lemma NothingMoves(a: seq<string>, i: nat)
    requires i < |a|
    ensures Exchange(a, i, i, i + 1) == a
  {
  }
}
