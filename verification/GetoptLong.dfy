// The scan of src-fdkaac/missings/getopt.c with its static state: it moves
// arguments in place while it reads them.
module GetoptLong {
  import opened OptionTable
  import opened LongLookup
  import opened OptionScanner
  import opened OptionRuns
  import opened ScanView
  import opened Rotation

  const EMSG := Cursor("", 0)

  class Getopt {
    var optind: int
    var optopt: int
    var optreset: bool
    var optarg: Option<string>
    var longIndex: Option<nat>    // what idx points to
    var flags: map<nat, int>      // the cells that flag pointers name
    var place: Cursor
    var nonoptStart: int
    var nonoptEnd: int

    constructor ()
      ensures optind == 1 && !optreset && place == EMSG && nonoptStart == -1 && nonoptEnd == -1
    {
      optind, optopt, optreset, optarg := 1, '?' as int, false, None;
      longIndex, flags := None, map[];
      place, nonoptStart, nonoptEnd := EMSG, -1, -1;
    }

    // ----------------------------------------------------- the abstract state

    // The next call starts a new scan at optind.
    ghost predicate Restarts()
      reads this
    {
      optreset || optind == 0
    }

    ghost function Index(nargv: array<string>): (i: nat)
      reads this
      ensures i <= nargv.Length
    {
      var i := if optind == 0 then 1 else optind;
      if 0 <= i <= nargv.Length then i else nargv.Length
    }

    // Where the block of skipped operands starts and ends, if there is one.
    ghost function BlockStart(nargv: array<string>): nat
      requires Restarts() || Shape(nargv)
      reads this, nargv
    {
      if Restarts() || nonoptStart == -1 then Index(nargv) else nonoptStart
    }

    ghost function BlockEnd(nargv: array<string>): nat
      requires Restarts() || Shape(nargv)
      reads this, nargv
    {
      if Restarts() || nonoptEnd == -1 then Index(nargv) else nonoptEnd
    }

    // The shape of nargv during a scan: arguments taken, operands skipped,
    // arguments taken since, arguments to be scanned.
    ghost predicate Shape(nargv: array<string>)
      reads this, nargv
    {
      optind >= 1 &&
      (nonoptStart == -1 ==> nonoptEnd == -1) &&
      (nonoptStart != -1 ==>
        1 <= nonoptStart < (if nonoptEnd == -1 then optind else nonoptEnd) <= optind <= nargv.Length) &&
      (Pos() > 0 ==>
        optind < nargv.Length && place.text == nargv[optind] && IsOptionArgument(nargv[optind]) &&
        (nonoptStart != -1 ==> nonoptEnd != -1)) &&
      (Pos() == 0 && nonoptEnd != -1 ==>
        nonoptEnd < optind || (optind < nargv.Length && !IsOperand(nargv[optind])))
    }

    // Between two calls a block of skipped operands has its end recorded.
    ghost predicate Valid(nargv: array<string>)
      reads this, nargv
    {
      Shape(nargv) && (nonoptStart == -1 <==> nonoptEnd == -1) && (place.AtEnd() || place.pos > 0)
    }

    ghost function Pos(): nat
      reads this
    {
      if Restarts() || place.AtEnd() then 0 else place.pos
    }

    ghost function Now(nargv: array<string>): View
      requires Restarts() || Shape(nargv)
      reads this, nargv
    {
      ViewOf(nargv[..], BlockStart(nargv), BlockEnd(nargv), Index(nargv), Pos())
    }

    // What a call leaves in the variables the caller reads.
    ghost predicate Shows(cfg: Config, a: Answer, oldOptopt: int, oldIndex: Option<nat>, oldFlags: map<nat, int>)
      reads this
    {
      optarg == a.optarg && optopt == (if a.optopt.Some? then a.optopt.value else oldOptopt) &&
      longIndex == (if a.longIndex.Some? then a.longIndex else oldIndex) &&
      flags == Store(oldFlags, cfg, a)
    }

    // In other words.
    lemma ShowsAll(cfg: Config, a: Answer, oldOptopt: int, oldIndex: Option<nat>, oldFlags: map<nat, int>)
      requires Shows(cfg, a, oldOptopt, oldIndex, oldFlags)
      ensures optarg == a.optarg && flags == Store(oldFlags, cfg, a)
      ensures a.optopt.Some? ==> optopt == a.optopt.value
      ensures a.optopt.None? ==> optopt == oldOptopt
      ensures a.longIndex.Some? ==> longIndex == a.longIndex
      ensures a.longIndex.None? ==> longIndex == oldIndex
    {
    }

    // ------------------------------------------------------------ the program

    // Lines 286-363: the option is known; optind is past its argument.
    method FinishLong(nargv: array<string>, cfg: Config, hasEqual: Option<string>, match_: nat) returns (r: int)
      requires cfg.IsBsd() && cfg.longOptions.Some? && match_ < |cfg.longOptions.value|
      requires 1 <= optind <= nargv.Length && optarg == None
      modifies this
      ensures place == old(place) && optreset == old(optreset)
      ensures nonoptStart == old(nonoptStart) && nonoptEnd == old(nonoptEnd)
      ensures var c := ReadLongArgument(cfg, old(nargv[optind - 1..]), hasEqual, match_);
        r == c.answer.ret && optind == old(optind) - 1 + c.take &&
        Shows(cfg, c.answer, old(optopt), old(longIndex), old(flags))
    {
      ghost var rest := nargv[optind - 1..];
      var o := cfg.longOptions.value[match_];
      if o.hasArg == NoArgument && hasEqual.Some? {
        optopt := if o.flag.None? then o.val else 0;
        return BAD_CHAR;
      }
      if o.hasArg == RequiredArgument || o.hasArg == OptionalArgument {
        if hasEqual.Some? {
          optarg := hasEqual;
        } else if o.hasArg == RequiredArgument {
          // nargv[nargc] is NULL
          optarg := if optind < nargv.Length then Some(nargv[optind]) else None;
          optind := optind + 1;
        }
      }
      if o.hasArg == RequiredArgument && optarg == None {
        optopt := if o.flag.None? then o.val else 0;
        optind := optind - 1;
        return cfg.BadArg();
      }
      longIndex := Some(match_);
      if o.flag.Some? {
        flags := flags[o.flag.value := o.val];
        return 0;
      } else {
        return o.val;
      }
    }

    method ParseLongOptions(nargv: array<string>, cfg: Config, shortToo: bool) returns (r: int)
      requires cfg.IsBsd() && cfg.longOptions.Some? && 0 <= optind < nargv.Length && optarg == None
      modifies this
      ensures place == old(place) && optreset == old(optreset)
      ensures nonoptStart == old(nonoptStart) && nonoptEnd == old(nonoptEnd)
      ensures var l := ReadLong(cfg, old(nargv[optind..]), old(place.Text()), shortToo);
        if l.None? then
          r == DONE && optind == old(optind) && optarg == None && optopt == old(optopt) &&
          longIndex == old(longIndex) && flags == old(flags)
        else
          r == l.value.answer.ret && optind == old(optind) + l.value.take &&
          Shows(cfg, l.value.answer, old(optopt), old(longIndex), old(flags))
    {
      hide Find, ReadLongArgument;
      var currentArgv := place.Text();
      optind := optind + 1;
      var lookup := LookUp(cfg.longOptions.value, NameOf(currentArgv), shortToo, cfg.longOnly);
      match lookup
      case Ambiguous =>
        optopt := 0;
        r := BAD_CHAR;
      case Match(i) =>
        r := FinishLong(nargv, cfg, ValueOf(currentArgv), i);
      case NoMatch =>
        if shortToo {
          optind := optind - 1;
          r := DONE;
        } else {
          optopt := 0;
          r := BAD_CHAR;
        }
    }

    // Lines 541-560: -W, place is behind the letter.
    method ParseW(nargv: array<string>, cfg: Config) returns (r: int)
      requires cfg.IsBsd() && cfg.longOptions.Some? && 0 <= optind < nargv.Length && optarg == None
      modifies this
      ensures optreset == old(optreset) && nonoptStart == old(nonoptStart) && nonoptEnd == old(nonoptEnd)
      ensures place == EMSG
      ensures var c := ReadW(cfg, old(nargv[optind..]), old(place.Text()));
        r == c.answer.ret && optind == old(optind) + c.take &&
        Shows(cfg, c.answer, old(optopt), old(longIndex), old(flags))
    {
      hide ReadLong;
      ghost var rest, after := nargv[optind..], place.Text();
      if !place.AtEnd() {
        ReadLongShape(cfg, rest, after, false);
      } else {
        optind := optind + 1;
        if optind >= nargv.Length {
          place := EMSG;
          optopt := 'W' as int;
          return cfg.BadArg();
        }
        place := Cursor(nargv[optind], 0);
        assert nargv[optind..] == rest[1..] && place.Text() == rest[1];
        ReadLongShape(cfg, rest[1..], rest[1], false);
      }
      r := ParseLongOptions(nargv, cfg, false);
      place := EMSG;
    }

    // Lines 565-580: a letter with an argument, place is behind the letter.
    method ParseLetterArgument(nargv: array<string>, cfg: Config, optchar: char, optional: bool) returns (r: int)
      requires cfg.IsBsd() && 0 <= optind < nargv.Length && optarg == None
      modifies this
      ensures optreset == old(optreset) && nonoptStart == old(nonoptStart) && nonoptEnd == old(nonoptEnd)
      ensures place == EMSG
      ensures var c := ReadShortArgument(cfg, old(nargv[optind..]), optchar, old(place.Text()), optional);
        r == c.answer.ret && optind == old(optind) + c.take &&
        Shows(cfg, c.answer, old(optopt), old(longIndex), old(flags))
    {
      if !place.AtEnd() {
        optarg := Some(place.Text());
      } else if !optional {
        optind := optind + 1;
        if optind >= nargv.Length {
          place := EMSG;
          optopt := optchar as int;
          return cfg.BadArg();
        }
        optarg := Some(nargv[optind]);
      }
      place := EMSG;
      optind := optind + 1;
      r := optchar as int;
    }

    // The letter part: lines 518-582.
    method ParseLetter(nargv: array<string>, cfg: Config) returns (r: int)
      requires cfg.IsBsd() && 0 <= optind < nargv.Length && optarg == None
      requires place.text == nargv[optind] && place.pos < |place.text|
      modifies this
      ensures optreset == old(optreset) && nonoptStart == old(nonoptStart) && nonoptEnd == old(nonoptEnd)
      ensures var c := ReadShort(cfg, old(nargv[optind..]), old(place.pos));
        r == c.answer.ret && optind == old(optind) + c.take &&
        Shows(cfg, c.answer, old(optopt), old(longIndex), old(flags)) &&
        (if c.pos > 0 then place == Cursor(old(place.text), c.pos) else place.AtEnd())
    {
      hide ReadW, ReadShortArgument;
      ghost var rest := nargv[optind..];
      ghost var after := rest[0][place.pos + 1..];
      ghost var kind := Classify(cfg, rest[0][place.pos], |after| == 0);
      var letters := cfg.Letters();
      var optchar := place.Char();
      place := place.Advance();
      assert place.Text() == after && (place.AtEnd() <==> |after| == 0);
      var oli := IndexOf(letters, optchar);
      if optchar == ':' || (optchar == '-' && !place.AtEnd()) || oli == |letters| {
        if optchar == '-' && place.AtEnd() {
          assert kind == Dash;
          return DONE;
        }
        assert kind == Illegal;
        if place.AtEnd() {
          optind := optind + 1;
        }
        optopt := optchar as int;
        r := BAD_CHAR;
      } else if cfg.longOptions.Some? && optchar == 'W' && CharAt(letters, oli + 1) == ';' {
        assert kind == LongFollows;
        r := ParseW(nargv, cfg);
        ReadWShape(cfg, rest, after);
      } else if CharAt(letters, oli + 1) != ':' {
        assert kind == Plain;
        if place.AtEnd() {
          optind := optind + 1;
        }
        r := optchar as int;
      } else {
        var optional := CharAt(letters, oli + 2) == ':';
        assert kind == TakesArgument(optional);
        r := ParseLetterArgument(nargv, cfg, optchar, optional);
        ShortArgumentEnds(cfg, rest, optchar, after, optional);
      }
    }

    // The option at place: lines 490-582.
    method ParseOption(nargv: array<string>, cfg: Config) returns (r: int)
      requires cfg.IsBsd() && 0 <= optind < nargv.Length && optarg == None
      requires place.text == nargv[optind] && 1 <= place.pos < |place.text|
      modifies this
      ensures optreset == old(optreset) && nonoptStart == old(nonoptStart) && nonoptEnd == old(nonoptEnd)
      ensures var c := ReadOption(cfg, old(nargv[optind..]), old(place.pos));
        r == c.answer.ret && optind == old(optind) + c.take &&
        Shows(cfg, c.answer, old(optopt), old(longIndex), old(flags)) &&
        (if c.pos > 0 then place == Cursor(old(place.text), c.pos) else place.AtEnd())
    {
      hide ReadLong, ReadShort;
      ghost var rest, text := nargv[optind..], place.Text();
      if cfg.longOptions.Some? && place != Cursor(nargv[optind], 0) && (place.Char() == '-' || cfg.longOnly) {
        var shortToo := false;
        if place.Char() == '-' {
          place := place.Advance();
        } else if place.Char() != ':' && place.Char() in cfg.Letters() {
          shortToo := true;
        }
        ReadLongShape(cfg, rest, place.Text(), shortToo);
        assert place.Text() == if text[0] == '-' then text[1..] else text;
        r := ParseLongOptions(nargv, cfg, shortToo);
        if r != DONE {
          place := EMSG;
          return;
        }
      }
      r := ParseLetter(nargv, cfg);
    }

    // permute_args on the blocks of the scan: the operands go behind the
    // options taken since.
    method ExchangeBlocks(nargv: array<string>)
      requires Shape(nargv) && !Restarts() && nonoptEnd != -1 && nonoptEnd < optind
      modifies nargv
      ensures var v := old(Now(nargv)); nargv[..] == v.taken + v.skipped + v.rest
    {
      ghost var a := nargv[..];
      PermuteArgs(nonoptStart, nonoptEnd, optind, nargv);
    }

    // Lines 453-463.
    method SkipOperand(nargv: array<string>)
      requires Shape(nargv) && !Restarts() && Pos() == 0
      requires optind < nargv.Length && IsOperand(nargv[optind])
      modifies this`optind, this`nonoptStart, this`nonoptEnd, nargv
      ensures Shape(nargv) && !Restarts() && Pos() == 0 && optind == old(optind) + 1
      ensures Now(nargv) == SkipOne(old(Now(nargv)))
    {
      hide SkipOne, ViewOf;
      ghost var v := Now(nargv);
      if nonoptStart == -1 {
        nonoptStart := optind;
      } else if nonoptEnd != -1 {
        ExchangeBlocks(nargv);
        Regrouped(nargv[..], v);
        nonoptStart := optind - (nonoptEnd - nonoptStart);
        nonoptEnd := -1;
      }
      assert nonoptStart == |v.taken| && ViewOf(nargv[..], nonoptStart, optind, optind, 0) == v;
      GrowBlock(nargv[..], nonoptStart, optind);
      optind := optind + 1;
    }

    // Lines 413-429: the end of the vector.
    method FinishAtEnd(nargv: array<string>)
      requires Shape(nargv) && !Restarts() && place == EMSG && optind >= nargv.Length
      modifies this`optind, this`nonoptStart, this`nonoptEnd, nargv
      ensures Valid(nargv) && !Restarts() && nonoptStart == -1
      ensures old(optind) <= nargv.Length ==> optind <= nargv.Length
      ensures Now(nargv) == Advance(old(Now(nargv)), Finish(0, EndOfVector))
    {
      hide Advance, ViewOf;
      ghost var v := Now(nargv);
      AdvanceToEnd(v, 0, EndOfVector);
      assert v.taken + v.rest[..0] == v.taken && v.rest[0..] == v.rest;
      if nonoptEnd != -1 {
        ExchangeBlocks(nargv);
        Regrouped(nargv[..], v);
        optind := optind - (nonoptEnd - nonoptStart);
      } else if nonoptStart != -1 {
        DropBlock(nargv[..], nonoptStart, optind, 0);
        optind := nonoptStart;
      } else {
        DropBlock(nargv[..], nargv.Length, nargv.Length, 0);
      }
      nonoptStart, nonoptEnd := -1, -1;
    }

    // Lines 473-486: the marker "--".
    method FinishAtMarker(nargv: array<string>)
      requires Shape(nargv) && !Restarts() && place == EMSG && (nonoptStart != -1 ==> nonoptEnd != -1)
      requires optind < nargv.Length && IsMarker(nargv[optind])
      modifies this`optind, this`nonoptStart, this`nonoptEnd, nargv
      ensures Valid(nargv) && !Restarts() && nonoptStart == -1 && optind <= nargv.Length
      ensures Now(nargv) == Advance(old(Now(nargv)), Finish(1, Marker))
    {
      hide Advance, ViewOf;
      ghost var v := Now(nargv);
      AdvanceToEnd(v, 1, Marker);
      TakeOne(nargv[..], BlockStart(nargv), BlockEnd(nargv), optind);
      optind := optind + 1;
      ghost var w := Now(nargv);
      assert w == View(v.taken + v.rest[..1], v.skipped, v.rest[1..], 0);
      if nonoptEnd != -1 {
        ExchangeBlocks(nargv);
        Regrouped(nargv[..], w);
        optind := optind - (nonoptEnd - nonoptStart);
      }
      nonoptStart, nonoptEnd := -1, -1;
    }

    // Lines 467-487: an option or the marker at optind.
    method AtDash(nargv: array<string>) returns (outcome: Outcome)
      requires Shape(nargv) && !Restarts() && Pos() == 0
      requires optind < nargv.Length && place == Cursor(nargv[optind], 0) && !IsOperand(nargv[optind])
      modifies this`optind, this`nonoptStart, this`nonoptEnd, this`place, nargv
      ensures Valid(nargv) && !Restarts() && optind <= nargv.Length
      ensures var v := old(Now(nargv));
        if IsMarker(v.rest[0]) then
          outcome == Stopped(DONE) && Now(nargv) == Advance(v, Finish(1, Marker))
        else
          outcome == Found && place == Cursor(v.rest[0], 1) && Now(nargv) == v.(pos := 1)
    {
      hide Advance, ViewOf;
      PlaceOnly(nargv[..], BlockStart(nargv), BlockEnd(nargv), optind);
      if nonoptStart != -1 && nonoptEnd == -1 {
        nonoptEnd := optind;
      }
      place := place.Advance();
      if place.Char() == '-' && place.Advance().AtEnd() {
        place := EMSG;
        FinishAtMarker(nargv);
        return Stopped(DONE);
      }
      return Found;
    }

    // Lines 437-465: an operand at optind.
    method AtOperand(nargv: array<string>, cfg: Config) returns (outcome: Outcome)
      requires cfg.IsBsd() && Shape(nargv) && !Restarts() && place == EMSG && optarg == None
      requires cfg.Operands() == Permute || Valid(nargv)
      requires optind < nargv.Length && IsOperand(nargv[optind])
      modifies this`optind, this`nonoptStart, this`nonoptEnd, this`optarg, nargv
      ensures Shape(nargv) && !Restarts() && Pos() == 0 && (!outcome.Passed? ==> Valid(nargv))
      ensures optind <= nargv.Length
      ensures var v := old(Now(nargv));
        match cfg.Operands()
        case ReturnInOrder =>
          outcome == Stopped(IN_ORDER) && optarg == Some(v.rest[0]) &&
          Now(nargv) == Advance(v, Read(1, 0, IN_ORDER, Some(v.rest[0]), None))
        case StopAtFirst =>
          outcome == Stopped(DONE) && optarg == None && Now(nargv) == Advance(v, Finish(0, OptionScanner.AtOperand))
        case Permute =>
          outcome == Passed && optarg == None && Now(nargv) == SkipOne(v) && optind == old(optind) + 1
    {
      hide Advance, SkipOne, ViewOf;
      ghost var v := Now(nargv);
      match cfg.Operands()
      case ReturnInOrder =>
        TakeSome(nargv[..], BlockStart(nargv), BlockEnd(nargv), optind, 0, Read(1, 0, IN_ORDER, Some(v.rest[0]), None));
        optarg := Some(nargv[optind]);
        optind := optind + 1;
        return Stopped(IN_ORDER);
      case StopAtFirst =>
        TakeSome(nargv[..], BlockStart(nargv), BlockEnd(nargv), optind, 0, Finish(0, OptionScanner.AtOperand));
        return Stopped(DONE);
      case Permute =>
        SkipOperand(nargv);
        return Passed;
    }

    // One turn of the loop at "start" (lines 411-488): skip the operand at
    // optind, stop, or put place on the first letter of the option there.
    method Inspect(nargv: array<string>, cfg: Config) returns (outcome: Outcome)
      requires cfg.IsBsd() && Shape(nargv) && !Restarts() && Pos() == 0 && optarg == None
      requires cfg.Operands() == Permute || Valid(nargv)
      modifies this`optind, this`nonoptStart, this`nonoptEnd, this`place, this`optarg, nargv
      ensures Shape(nargv) && !Restarts() && (!outcome.Passed? ==> Valid(nargv))
      ensures old(optind) <= nargv.Length ==> optind <= nargv.Length
      ensures var v := old(Now(nargv));
        var c := Next(cfg, v.rest, 0);
        match outcome
        case Passed =>
          |v.rest| > 0 && IsOperand(v.rest[0]) && cfg.Operands() == Permute && Pos() == 0 && optarg == None &&
          optind == old(optind) + 1 <= nargv.Length && Now(nargv) == SkipOne(v)
        case Stopped(r) =>
          r == c.answer.ret && optarg == c.answer.optarg && c.answer.optopt == None && c.answer.longIndex == None &&
          c.skip + c.take <= |v.rest| && Now(nargv) == Advance(v, c)
        case Found =>
          |v.rest| > 0 && IsOptionArgument(v.rest[0]) && place == Cursor(v.rest[0], 1) && optarg == None &&
          Now(nargv) == v.(pos := 1)
    {
      hide Next, ReadOption, Advance, SkipOne, ViewOf;
      ghost var v := Now(nargv);
      ghost var c := Next(cfg, v.rest, 0);
      NextUnfolds(cfg, v.rest);
      if optind >= nargv.Length {
        place := EMSG;
        FinishAtEnd(nargv);
        return Stopped(DONE);
      }
      assert nargv[optind] == v.rest[0];
      place := Cursor(nargv[optind], 0);
      if place.Char() != '-' || place.Advance().AtEnd() {
        place := EMSG;
        outcome := AtOperand(nargv, cfg);
        return;
      }
      outcome := AtDash(nargv);
    }

    // The loop at "start".  When it finds an option, what the call is to do is
    // what reading that option does.
    method UpdatePlace(nargv: array<string>, cfg: Config) returns (outcome: Outcome)
      requires cfg.IsBsd() && Valid(nargv) && !Restarts() && Pos() == 0 && optarg == None
      modifies this`optind, this`nonoptStart, this`nonoptEnd, this`place, this`optarg, nargv
      ensures Valid(nargv) && !Restarts() && !outcome.Passed?
      ensures old(optind) <= nargv.Length ==> optind <= nargv.Length
      ensures var v := old(Now(nargv));
        var c := Next(cfg, v.rest, 0);
        c.skip + c.take <= |v.rest| &&
        if outcome.Stopped? then
          outcome.r == c.answer.ret && optarg == c.answer.optarg && c.answer.optopt == None &&
          c.answer.longIndex == None && Now(nargv) == Advance(v, c)
        else
          var w := Now(nargv);
          |w.rest| > 0 && IsOptionArgument(w.rest[0]) && place == Cursor(w.rest[0], 1) && w.pos == 1 && optarg == None &&
          var d := ReadOption(cfg, w.rest, 1);
          d.skip + d.take <= |w.rest| && d.answer == c.answer && Advance(w, d) == Advance(v, c)
    {
      hide Next, ReadOption, Now, Advance, SkipOne;
      ghost var v := Now(nargv);
      ghost var c := Next(cfg, v.rest, 0);
      CallProgress(cfg, v.rest, 0);
      ghost var w := v;
      outcome := Passed;
      while outcome.Passed?
        invariant Shape(nargv) && !Restarts()
        invariant old(optind) <= nargv.Length ==> optind <= nargv.Length
        invariant SameCall(cfg, v, w)
        invariant if outcome.Passed? then
            w == Now(nargv) && Pos() == 0 && optarg == None && (cfg.Operands() == Permute || Valid(nargv))
          else Valid(nargv)
        invariant outcome.Stopped? ==>
          var d := Next(cfg, w.rest, 0);
          outcome.r == d.answer.ret && optarg == d.answer.optarg && d.answer.optopt == None &&
          d.answer.longIndex == None && d.skip + d.take <= |w.rest| && Now(nargv) == Advance(w, d)
        invariant outcome.Found? ==>
          |w.rest| > 0 && IsOptionArgument(w.rest[0]) && place == Cursor(w.rest[0], 1) && optarg == None &&
          Now(nargv) == w.(pos := 1)
        decreases outcome.Passed?, nargv.Length - optind
      {
        outcome := Inspect(nargv, cfg);
        if outcome.Passed? {
          SameCallSkip(cfg, v, w);
          w := SkipOne(w);
        }
      }
      if outcome.Found? {
        FoundOption(cfg, v, w);
      }
    }

    // Lines 404-409.
    method Begin(nargv: array<string>)
      requires optind >= 0 && (Restarts() || Valid(nargv))
      modifies this`optind, this`optreset, this`optarg, this`nonoptStart, this`nonoptEnd, this`place
      ensures Valid(nargv) && !Restarts() && optarg == None && Now(nargv) == old(Now(nargv))
      ensures old(optind) <= nargv.Length && nargv.Length > 0 ==> optind <= nargv.Length
    {
      if optind == 0 {
        optind, optreset := 1, true;
      }
      optarg := None;
      if optreset {
        nonoptStart, nonoptEnd := -1, -1;
        // the place of the old scan is not read again
        optreset, place := false, EMSG;
      }
    }

    // Lines 490-582, with what they mean for the vector.
    method TakeOption(nargv: array<string>, cfg: Config) returns (r: int)
      requires cfg.IsBsd() && Valid(nargv) && !Restarts() && Pos() > 0 && optarg == None
      modifies this
      ensures Valid(nargv) && !Restarts() && optind <= nargv.Length
      ensures var v := old(Now(nargv));
        |v.rest| > 0 && v.pos < |v.rest[0]| &&
        var c := ReadOption(cfg, v.rest, v.pos);
        c.skip + c.take <= |v.rest| && Now(nargv) == Advance(v, c) &&
        r == c.answer.ret && Shows(cfg, c.answer, old(optopt), old(longIndex), old(flags))
    {
      hide ReadOption, Advance, ViewOf;
      ghost var v := Now(nargv);
      assert v.rest[0] == nargv[optind];
      ghost var c := ReadOption(cfg, v.rest, v.pos);
      ReadOptionShape(cfg, v.rest, v.pos);
      OnlyStrayDash(cfg, v.rest, v.pos);
      TakeSome(nargv[..], BlockStart(nargv), BlockEnd(nargv), optind, v.pos, c);
      r := ParseOption(nargv, cfg);
    }

    // One call.  The answer and the new state of the vector are those of the
    // read-only scanner: nothing here depends on how the arguments move.
    method GetoptInternal(nargv: array<string>, cfg: Config) returns (r: int)
      requires cfg.IsBsd() && optind >= 0 && (Restarts() || Valid(nargv))
      modifies this, nargv
      ensures Valid(nargv) && !Restarts()
      ensures old(optind) <= nargv.Length && nargv.Length > 0 ==> optind <= nargv.Length
      ensures var v := old(Now(nargv));
        Scanning(v.rest, v.pos) &&
        var c := Next(cfg, v.rest, v.pos);
        c.skip + c.take <= |v.rest| && Now(nargv) == Advance(v, c) &&
        r == c.answer.ret && Shows(cfg, c.answer, old(optopt), old(longIndex), old(flags))
    {
      hide Next, ReadOption, Advance, Now;
      NowScans(nargv);
      Begin(nargv);
      ghost var v := Now(nargv);
      NowScans(nargv);
      if place.AtEnd() {
        var outcome := UpdatePlace(nargv, cfg);
        if outcome.Stopped? {
          return outcome.r;
        }
        NowScans(nargv);
      } else {
        NextInside(cfg, v.rest, v.pos);
      }
      r := TakeOption(nargv, cfg);
    }

    // The loop of a caller: call until -1 (src-fdkaac/src/main.c, line 1167).
    method ScanAll(nargv: array<string>, cfg: Config) returns (seen: seq<(int, Option<string>)>)
      requires cfg.IsBsd() && optind >= 0 && (Restarts() || Valid(nargv))
      modifies this, nargv
      ensures Valid(nargv) && !Restarts()
      ensures old(optind) <= nargv.Length && nargv.Length > 0 ==> optind <= nargv.Length
      ensures var v := old(Now(nargv));
        Scanning(v.rest, v.pos) && seen == Seen(Answers(Run(cfg, v.rest, v.pos))) && Now(nargv) == WholeScan(cfg, v)
    {
      hide Next, Advance, Now, WholeScan, Run, Answers, Seen;
      NowScans(nargv);
      ghost var v := Now(nargv);
      ghost var w := v;
      seen := [];
      var ch := IN_ORDER;
      while ch != DONE
        invariant optind >= 0 && (Restarts() || Valid(nargv))
        invariant ch == DONE ==> Valid(nargv) && !Restarts()
        invariant old(optind) <= nargv.Length && nargv.Length > 0 ==> optind <= nargv.Length
        invariant Scanning(w.rest, w.pos)
        invariant ch != DONE ==>
          w == Now(nargv) && WholeScan(cfg, w) == WholeScan(cfg, v) &&
          seen + Seen(Answers(Run(cfg, w.rest, w.pos))) == Seen(Answers(Run(cfg, v.rest, v.pos)))
        invariant ch == DONE ==>
          seen == Seen(Answers(Run(cfg, v.rest, v.pos))) && Now(nargv) == WholeScan(cfg, v)
        decreases ch != DONE, |w.rest|, CharsLeft(w.rest, w.pos)
      {
        ghost var c := Next(cfg, w.rest, w.pos);
        CallProgress(cfg, w.rest, w.pos);
        OneCall(cfg, w);
        SeenFirst(Answers(Run(cfg, w.rest, w.pos)));
        NextShape(cfg, w.rest, w.pos);
        ch := GetoptInternal(nargv, cfg);
        NowScans(nargv);
        seen := seen + [(ch, optarg)];
        w := Now(nargv);
      }
    }

    // A scan from the start and, after a reset, another one.
    method ScanTwice(nargv: array<string>, cfg: Config)
      returns (first: seq<(int, Option<string>)>, second: seq<(int, Option<string>)>)
      requires cfg.IsBsd() && nargv.Length >= 1
      modifies this, nargv
      ensures var rest := old(nargv[1..]);
        first == Seen(Answers(Run(cfg, rest, 0))) &&
        (CleanEnd(Run(cfg, rest, 0)) ==>
          second == first && nargv[..] == [old(nargv[0])] + Permuted(cfg, rest) &&
          optind == 1 + |Taken(cfg, rest, 0)|)
    {
      hide Next, Run, Taken, Skipped, Unscanned, WholeScan, Seen, Answers;
      ghost var rest, name := nargv[1..], nargv[0];
      optreset, optind := true, 1;
      assert Now(nargv) == View([name], [], rest, 0);
      first := ScanAll(nargv, cfg);
      if CleanEnd(Run(cfg, rest, 0)) {
        CleanScan(cfg, name, rest);
        NothingHeld(nargv);
        Rescan(cfg, rest);
        CleanScan(cfg, name, Permuted(cfg, rest));
      }
      optreset, optind := true, 1;
      assert Now(nargv) == View(nargv[..1], [], nargv[1..], 0);
      assert CleanEnd(Run(cfg, rest, 0)) ==> Now(nargv) == View([name], [], Permuted(cfg, rest), 0);
      second := ScanAll(nargv, cfg);
      if CleanEnd(Run(cfg, rest, 0)) {
        NothingHeld(nargv);
      }
    }

    lemma NothingHeld(nargv: array<string>)
      requires Valid(nargv) && !Restarts() && Now(nargv).skipped == [] && optind <= nargv.Length
      ensures nargv[..] == Now(nargv).taken + Now(nargv).rest && optind == |Now(nargv).taken|
    {
    }

    lemma NowScans(nargv: array<string>)
      requires Restarts() || Valid(nargv)
      ensures Scanning(Now(nargv).rest, Now(nargv).pos) && Now(nargv).pos == Pos()
    {
      hide ViewOf;
    }
  }

  // The return value and optarg of each call.
  function Seen(answers: seq<Answer>): seq<(int, Option<string>)> {
    if |answers| == 0 then [] else [(answers[0].ret, answers[0].optarg)] + Seen(answers[1..])
  }

  lemma SeenFirst(answers: seq<Answer>)
    requires |answers| > 0
    ensures Seen(answers) == [(answers[0].ret, answers[0].optarg)] + Seen(answers[1..])
    ensures |answers| == 1 ==> Seen(answers) == [(answers[0].ret, answers[0].optarg)]
  {
  }

  lemma ShortArgumentEnds(cfg: Config, rest: seq<string>, c: char, after: string, optional: bool)
    requires |rest| > 0
    ensures ReadShortArgument(cfg, rest, c, after, optional).pos == 0
  {
  }
}
