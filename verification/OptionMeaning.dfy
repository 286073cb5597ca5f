// What every option comes to, spelled out from the option string and the table:
// declared, abbreviated and misused ones, in both engines.
module OptionMeaning {
  import opened OptionTable
  import opened LongLookup
  import opened OptionScanner
  import opened OptionWords
  import opened MingwLookup
  import opened ScanView

  // ------------------------------------------------------- the option string

  // options names the letter c, with v behind it, and not before; a first '+'
  // or '-' does not belong to the letters.
  predicate Declares(options: string, u: string, c: char, v: string) {
    c != ':' && c != '-' && c !in u &&
    if |options| > 0 && (options[0] == '+' || options[0] == '-') then options[1..] == u + [c] + v
    else options == u + [c] + v
  }

  predicate Mentions(options: string, c: char) {
    c in (if |options| > 0 && (options[0] == '+' || options[0] == '-') then options[1..] else options)
  }

  // ':' if the letters begin with it, else '?'.
  function MissingValue(options: string): int {
    if |options| > 0 && options[0] == ':' then ':' as int
    else if |options| > 1 && (options[0] == '+' || options[0] == '-') && options[1] == ':' then ':' as int
    else '?' as int
  }

  lemma MissingValueIs(cfg: Config)
    ensures cfg.BadArg() == MissingValue(cfg.options)
  {
  }

  lemma {:induction false} IndexInside(u: string, c: char, v: string)
    requires c !in u
    ensures IndexOf(u + [c] + v, c) == |u|
  {
    if |u| == 0 {
      assert u + [c] + v == [c] + v;
    } else {
      IndexInside(u[1..], c, v);
      assert (u + [c] + v)[1..] == u[1..] + [c] + v;
    }
  }

  lemma LettersOf(cfg: Config, u: string, c: char, v: string)
    requires Declares(cfg.options, u, c, v)
    ensures cfg.Letters() == u + [c] + v
  {
  }

  lemma Behind(u: string, c: char, v: string)
    ensures CharAt(u + [c] + v, |u| + 1) == (if |v| > 0 then v[0] else '\0')
    ensures CharAt(u + [c] + v, |u| + 2) == (if |v| > 1 then v[1] else '\0')
  {
  }

  // "c" alone, "c:", "c::", and "W;" when there are long options.
  lemma LetterDeclared(cfg: Config, u: string, c: char, v: string, last: bool)
    requires Declares(cfg.options, u, c, v)
    ensures Classify(cfg, c, last) ==
      if c == 'W' && |v| > 0 && v[0] == ';' && cfg.longOptions.Some? then LongFollows
      else if |v| == 0 || v[0] != ':' then Plain
      else TakesArgument(|v| > 1 && v[1] == ':')
  {
    LettersOf(cfg, u, c, v);
    IndexInside(u, c, v);
    Behind(u, c, v);
    hide IndexOf, CharAt;
  }

  lemma LetterUndeclared(cfg: Config, c: char, last: bool)
    requires !Mentions(cfg.options, c) || c == ':' || (c == '-' && !last)
    ensures Classify(cfg, c, last) == if c == '-' && last then Dash else Illegal
  {
  }

  // The second engine leaves out a first ':', and knows no -W.
  lemma MingwLetterDeclared(cfg: Config, u: string, c: char, v: string)
    requires Declares(cfg.options, u, c, v)
    ensures MingwClassify(cfg, c) ==
      if |v| == 0 || v[0] != ':' then Plain else TakesArgument(|v| > 1 && v[1] == ':')
  {
    hide IndexOf, CharAt, Declares;
    MingwLettersOf(cfg, u, c, v);
    var w := if |u| > 0 && u[0] == ':' then u[1..] else u;
    assert c !in w by { NotInside(cfg.options, u, c, v); }
    IndexInside(w, c, v);
    Behind(w, c, v);
  }

  lemma NotInside(options: string, u: string, c: char, v: string)
    requires Declares(options, u, c, v)
    ensures c !in u && (|u| > 0 ==> c !in u[1..])
  {
  }

  lemma MingwLettersOf(cfg: Config, u: string, c: char, v: string)
    requires Declares(cfg.options, u, c, v)
    ensures MingwLetters(cfg) == (if |u| > 0 && u[0] == ':' then u[1..] else u) + [c] + v
  {
    LettersOf(cfg, u, c, v);
    if |u| > 0 {
      assert (u + [c] + v)[1..] == u[1..] + [c] + v;
    }
  }

  lemma MingwLetterUndeclared(cfg: Config, c: char)
    requires !Mentions(cfg.options, c)
    ensures MingwClassify(cfg, c) == Illegal
  {
  }

  // ------------------------------------------------------------ single letters

  // What the letter c = b[0][pos] comes to in the first engine, if it is
  // declared with v behind it.  after is the rest of its argument.
  function LetterCall(cfg: Config, b: seq<string>, pos: nat, v: string): Call
    requires |b| > 0 && pos < |b[0]|
  {
    var c, after := b[0][pos] as int, b[0][pos + 1..];
    if |v| == 0 || v[0] != ':' then
      // no argument: the next letter is next, or the next argument
      if after == "" then Call(0, 1, 0, Answer(c, None, None, None, false), false, None)
      else Call(0, 0, pos + 1, Answer(c, None, None, None, false), false, None)
    else if after != "" then Call(0, 1, 0, Answer(c, Some(after), None, None, false), false, None)
    else if |v| > 1 && v[1] == ':' then Call(0, 1, 0, Answer(c, None, None, None, false), false, None)
    else if |b| > 1 then Call(0, 2, 0, Answer(c, Some(b[1]), None, None, false), false, None)
    else Call(0, 1, 0, Answer(MissingValue(cfg.options), None, Some(c), None, false), true, None)
  }

  // A letter that is not declared, or ':': '?' with optopt the letter.
  function BadLetter(b: seq<string>, pos: nat): Call
    requires |b| > 0 && pos < |b[0]|
  {
    var answer := Answer('?' as int, None, Some(b[0][pos] as int), None, false);
    if pos + 1 == |b[0]| then Call(0, 1, 0, answer, false, None) else Call(0, 0, pos + 1, answer, false, None)
  }

  lemma ShortMeans(cfg: Config, b: seq<string>, pos: nat, u: string, v: string)
    requires |b| > 0 && pos < |b[0]| && Declares(cfg.options, u, b[0][pos], v)
    requires b[0][pos] == 'W' && cfg.longOptions.Some? ==> |v| == 0 || v[0] != ';'
    ensures ReadShort(cfg, b, pos) == LetterCall(cfg, b, pos, v)
  {
    hide Classify, Declares;
    NoDashLetter(cfg.options, u, b[0][pos], v);
    LetterDeclared(cfg, u, b[0][pos], v, |b[0][pos + 1..]| == 0);
    MissingValueIs(cfg);
    hide Config.BadArg, MissingValue;
  }

  lemma LetterMeans(cfg: Config, b: seq<string>, pos: nat, u: string, v: string)
    requires cfg.IsBsd() && !cfg.longOnly && |b| > 0 && 1 <= pos < |b[0]|
    requires Declares(cfg.options, u, b[0][pos], v)
    requires b[0][pos] == 'W' && cfg.longOptions.Some? ==> |v| == 0 || v[0] != ';'
    ensures Scanning(b, pos) && Next(cfg, b, pos) == LetterCall(cfg, b, pos, v)
  {
    NoDashLetter(cfg.options, u, b[0][pos], v);
    ShortMeans(cfg, b, pos, u, v);
    hide Next, Classify, Declares, LetterCall;
    ReadsAsShort(cfg, b, pos);
  }

  lemma NoDashLetter(options: string, u: string, c: char, v: string)
    requires Declares(options, u, c, v)
    ensures c != '-' && c != ':'
  {
  }

  lemma BadLetterMeans(cfg: Config, b: seq<string>, pos: nat)
    requires cfg.IsBsd() && !cfg.longOnly && |b| > 0 && 1 <= pos < |b[0]| && b[0][pos] != '-'
    requires !Mentions(cfg.options, b[0][pos]) || b[0][pos] == ':'
    ensures Scanning(b, pos) && Next(cfg, b, pos) == BadLetter(b, pos)
  {
    hide Next, Classify, Mentions;
    ReadsAsShort(cfg, b, pos);
    LetterUndeclared(cfg, b[0][pos], |b[0][pos + 1..]| == 0);
  }

  // The second engine always sets optopt, leaves optarg alone on an invalid
  // letter, and makes it "" for a missing argument.
  function MingwLetterCall(cfg: Config, b: seq<string>, pos: nat, v: string): Call
    requires |b| > 0 && pos < |b[0]|
  {
    var c, after := b[0][pos] as int, b[0][pos + 1..];
    if |v| == 0 || v[0] != ':' then
      if after == "" then Call(0, 1, 0, Answer(c, None, Some(c), None, false), false, None)
      else Call(0, 0, pos + 1, Answer(c, None, Some(c), None, false), false, None)
    else if after != "" then Call(0, 1, 0, Answer(c, Some(after), Some(c), None, false), false, None)
    else if |v| > 1 && v[1] == ':' then Call(0, 1, 0, Answer(c, None, Some(c), None, false), false, None)
    else if |b| > 1 then Call(0, 2, 0, Answer(c, Some(b[1]), Some(c), None, false), false, None)
    else Call(0, 1, 0, Answer(MissingValue(cfg.options), Some(""), Some(c), None, false), true, None)
  }

  lemma MingwLetterMeans(cfg: Config, b: seq<string>, pos: nat, u: string, v: string)
    requires cfg.IsMingw() && |b| > 0 && 1 <= pos < |b[0]| && Declares(cfg.options, u, b[0][pos], v)
    requires pos == 1 && b[0][1] == '-' ==> cfg.longOptions.None?
    ensures Scanning(b, pos) && Next(cfg, b, pos) == MingwLetterCall(cfg, b, pos, v)
  {
    hide MingwClassify, Declares;
    NoDashLetter(cfg.options, u, b[0][pos], v);
    MingwLetterDeclared(cfg, u, b[0][pos], v);
    MissingValueIs(cfg);
    hide Config.BadArg, MissingValue;
    assert Next(cfg, b, pos) == ReadMingwShort(cfg, b, pos);
  }

  lemma MingwBadLetterMeans(cfg: Config, b: seq<string>, pos: nat)
    requires cfg.IsMingw() && |b| > 0 && 1 <= pos < |b[0]| && !Mentions(cfg.options, b[0][pos])
    requires pos == 1 && b[0][1] == '-' ==> cfg.longOptions.None?
    ensures Scanning(b, pos)
    ensures Next(cfg, b, pos) ==
      var answer := Answer('?' as int, None, Some(b[0][pos] as int), None, true);
      if pos + 1 == |b[0]| then Call(0, 1, 0, answer, false, None) else Call(0, 0, pos + 1, answer, false, None)
  {
    hide MingwClassify, Mentions;
    MingwLetterUndeclared(cfg, b[0][pos]);
    assert Next(cfg, b, pos) == ReadMingwShort(cfg, b, pos);
  }

  // A cluster is read from its first letter.
  lemma ClusterStarts(cfg: Config, b: seq<string>)
    requires cfg.Valid() && |b| > 0 && |b[0]| > 1 && b[0][0] == '-' && b[0] != "--"
    ensures Scanning(b, 1) && Next(cfg, b, 0) == Next(cfg, b, 1)
  {
    hide ReadOption;
  }

  // A dash inside a cluster, without long options: an invalid letter, or at
  // the end of the argument the end of the scan.
  lemma DashMeans(cfg: Config, b: seq<string>, pos: nat)
    requires cfg.IsBsd() && cfg.longOptions.None? && |b| > 0 && 1 <= pos < |b[0]| && b[0][pos] == '-'
    ensures Scanning(b, pos)
    ensures pos + 1 < |b[0]| ==> Next(cfg, b, pos) == BadLetter(b, pos)
    ensures pos + 1 == |b[0]| && !Mentions(cfg.options, '-') ==>
      Next(cfg, b, pos) == Call(0, 0, 0, Answer(-1, None, None, None, false), false, Some(StrayDash))
  {
    hide Classify, Mentions;
    if pos + 1 < |b[0]| || !Mentions(cfg.options, '-') {
      LetterUndeclared(cfg, '-', |b[0][pos + 1..]| == 0);
    }
    assert Next(cfg, b, pos) == ReadShort(cfg, b, pos);
  }

  // ------------------------------------------------------------- long options

  // Row is the one that name stands for: the first of this very name, or else
  // the first it abbreviates, if all it abbreviates ask for the same.  A single
  // character that could be a letter abbreviates nothing.
  ghost predicate Chosen(table: seq<LongOption>, name: string, single: bool, longOnly: bool, row: nat) {
    row < |table| &&
    if exists i :: 0 <= i < |table| && table[i].name == name then
      table[row].name == name && forall i :: 0 <= i < row ==> table[i].name != name
    else
      !(single && |name| == 1) && name <= table[row].name && (forall i :: 0 <= i < row ==> !(name <= table[i].name)) &&
      (forall i :: 0 <= i < |table| && i != row && name <= table[i].name ==>
        !longOnly && table[i].hasArg == table[row].hasArg && table[i].flag == table[row].flag && table[i].val == table[row].val)
  }

  ghost predicate Unknown(table: seq<LongOption>, name: string, single: bool) {
    if single && |name| == 1 then forall i :: 0 <= i < |table| ==> table[i].name != name
    else forall i :: 0 <= i < |table| ==> !(name <= table[i].name)
  }

  // No row of this very name, and two that it abbreviates and that differ.
  ghost predicate Unclear(table: seq<LongOption>, name: string, single: bool, longOnly: bool) {
    (forall i :: 0 <= i < |table| ==> table[i].name != name) && !(single && |name| == 1) &&
    exists i, j ::
      0 <= i < |table| && 0 <= j < |table| && i != j && name <= table[i].name && name <= table[j].name &&
      (longOnly || table[i].hasArg != table[j].hasArg || table[i].flag != table[j].flag || table[i].val != table[j].val)
  }

  lemma FindChosen(table: seq<LongOption>, name: string, single: bool, longOnly: bool, row: nat)
    requires Chosen(table, name, single, longOnly, row)
    ensures Find(table, name, single, longOnly) == Match(row)
  {
    if exists i :: 0 <= i < |table| && table[i].name == name {
      assert FirstExact(table, name, 0) == Some(row);
    } else {
      assert PartialAt(table, name, single, row);
      assert FirstPartial(table, name, single, 0) == Some(row);
    }
  }

  lemma FindUnknown(table: seq<LongOption>, name: string, single: bool, longOnly: bool)
    requires Unknown(table, name, single)
    ensures Find(table, name, single, longOnly) == NoMatch
  {
  }

  lemma FindUnclear(table: seq<LongOption>, name: string, single: bool, longOnly: bool)
    requires Unclear(table, name, single, longOnly)
    ensures Find(table, name, single, longOnly) == Ambiguous
  {
    var i, j :| 0 <= i < |table| && 0 <= j < |table| && i != j && name <= table[i].name && name <= table[j].name &&
      (longOnly || table[i].hasArg != table[j].hasArg || table[i].flag != table[j].flag || table[i].val != table[j].val);
    assert PartialAt(table, name, single, i) && PartialAt(table, name, single, j);
    LookupRule(table, name, single, longOnly);
  }

  // Every name is one of the three.
  lemma EveryName(table: seq<LongOption>, name: string, single: bool, longOnly: bool)
    ensures Unknown(table, name, single) || Unclear(table, name, single, longOnly) ||
      exists row: nat :: Chosen(table, name, single, longOnly, row)
  {
    LookupRule(table, name, single, longOnly);
    match Find(table, name, single, longOnly)
    case NoMatch => NothingFound(table, name, single, longOnly);
    case Ambiguous =>
    case Match(i) =>
      MatchChosen(table, name, single, longOnly, i);
  }

  lemma NothingFound(table: seq<LongOption>, name: string, single: bool, longOnly: bool)
    requires Find(table, name, single, longOnly) == NoMatch
    ensures Unknown(table, name, single)
  {
    assert FirstExact(table, name, 0) == None && FirstPartial(table, name, single, 0) == None;
    hide Find, FirstExact, FirstPartial;
    forall j | 0 <= j < |table| && !(single && |name| == 1) ensures !(name <= table[j].name) {
      assert table[j].name != name && !PartialAt(table, name, single, j);
    }
  }

  lemma MatchChosen(table: seq<LongOption>, name: string, single: bool, longOnly: bool, i: nat)
    requires Find(table, name, single, longOnly) == Match(i)
    ensures Chosen(table, name, single, longOnly, i)
  {
    if FirstExact(table, name, 0) == None {
      assert FirstPartial(table, name, single, 0) == Some(i) && PartialAt(table, name, single, i);
      forall j | 0 <= j < i ensures !(name <= table[j].name) {
        assert !PartialAt(table, name, single, j);
      }
      forall j | 0 <= j < |table| && j != i && name <= table[j].name
        ensures !longOnly && table[j].hasArg == table[i].hasArg && table[j].flag == table[i].flag && table[j].val == table[i].val
      {
        assert PartialAt(table, name, single, j);
      }
    }
  }

  function NameAndValue(name: string, value: Option<string>): string {
    name + (if value.Some? then "=" + value.value else "")
  }

  // What row comes to in the first engine when "=value" is there or not, and
  // rest[0] is the argument being read.
  function LongCall(cfg: Config, rest: seq<string>, o: LongOption, row: nat, value: Option<string>): Call {
    var val := if o.flag == None then o.val else 0;
    if o.hasArg == NoArgument && value.Some? then
      Call(0, 1, 0, Answer('?' as int, None, Some(val), None, false), false, None)
    else if o.hasArg == RequiredArgument && value.None? then
      if |rest| > 1 then Call(0, 2, 0, Answer(val, Some(rest[1]), None, Some(row), false), false, None)
      else Call(0, 1, 0, Answer(MissingValue(cfg.options), None, Some(val), None, false), true, None)
    else Call(0, 1, 0, Answer(val, value, None, Some(row), false), false, None)
  }

  const BadLong := Call(0, 1, 0, Answer('?' as int, None, Some(0), None, false), false, None)

  lemma SplitName(name: string, value: Option<string>)
    requires '=' !in name
    ensures NameOf(NameAndValue(name, value)) == name && ValueOf(NameAndValue(name, value)) == value
  {
    SplitAtEquals(name, if value.Some? then "=" + value.value else "");
  }

  lemma LongMeans(cfg: Config, rest: seq<string>, name: string, value: Option<string>, single: bool, row: nat)
    requires cfg.longOptions.Some? && '=' !in name && Chosen(cfg.longOptions.value, name, single, cfg.longOnly, row)
    ensures ReadLong(cfg, rest, NameAndValue(name, value), single) ==
            Some(LongCall(cfg, rest, cfg.longOptions.value[row], row, value))
  {
    SplitName(name, value);
    FindChosen(cfg.longOptions.value, name, single, cfg.longOnly, row);
    MissingValueIs(cfg);
    hide Find, NameOf, ValueOf, NameAndValue, Config.BadArg, MissingValue, Chosen;
  }

  lemma BadLongMeans(cfg: Config, rest: seq<string>, name: string, value: Option<string>, single: bool)
    requires cfg.longOptions.Some? && '=' !in name
    ensures Unclear(cfg.longOptions.value, name, single, cfg.longOnly) ==>
      ReadLong(cfg, rest, NameAndValue(name, value), single) == Some(BadLong)
    ensures Unknown(cfg.longOptions.value, name, single) ==>
      ReadLong(cfg, rest, NameAndValue(name, value), single) == if single then None else Some(BadLong)
  {
    SplitName(name, value);
    if Unclear(cfg.longOptions.value, name, single, cfg.longOnly) {
      FindUnclear(cfg.longOptions.value, name, single, cfg.longOnly);
    }
    if Unknown(cfg.longOptions.value, name, single) {
      FindUnknown(cfg.longOptions.value, name, single, cfg.longOnly);
    }
    hide Find, NameOf, ValueOf, NameAndValue, Unclear, Unknown;
  }

  // At pos, text is read as a long option and as nothing else: behind a dash,
  // or, for getopt_long_only, where no letter is declared.
  predicate LongAt(cfg: Config, b: seq<string>, pos: nat, text: string) {
    cfg.IsBsd() && cfg.longOptions.Some? && |b| > 0 && 1 <= pos < |b[0]| &&
    if b[0][pos] == '-' then b[0][pos + 1..] == text
    else cfg.longOnly && b[0][pos..] == text && (b[0][pos] == ':' || !Mentions(cfg.options, b[0][pos]))
  }

  lemma ReadsLong(cfg: Config, b: seq<string>, pos: nat, text: string)
    requires LongAt(cfg, b, pos, text)
    ensures Scanning(b, pos) && ReadLong(cfg, b, text, false).Some?
    ensures Next(cfg, b, pos) == ReadLong(cfg, b, text, false).value
  {
    ReadLongShape(cfg, b, text, false);
    hide ReadLong;
    assert b[0][pos..][1..] == b[0][pos + 1..];
    assert Next(cfg, b, pos) == ReadBsd(cfg, b, pos);
  }

  // A long option, used as its row says or not.
  lemma LongOptionMeans(cfg: Config, b: seq<string>, pos: nat, name: string, value: Option<string>)
    requires LongAt(cfg, b, pos, NameAndValue(name, value)) && '=' !in name
    ensures Scanning(b, pos)
    ensures var table, call := cfg.longOptions.value, Next(cfg, b, pos);
      (forall row: nat :: Chosen(table, name, false, cfg.longOnly, row) ==> call == LongCall(cfg, b, table[row], row, value)) &&
      (Unknown(table, name, false) || Unclear(table, name, false, cfg.longOnly) ==> call == BadLong)
  {
    ReadsLong(cfg, b, pos, NameAndValue(name, value));
    BadLongMeans(cfg, b, name, value, false);
    forall row: nat | Chosen(cfg.longOptions.value, name, false, cfg.longOnly, row)
      ensures Next(cfg, b, pos) == LongCall(cfg, b, cfg.longOptions.value[row], row, value)
    {
      LongMeans(cfg, b, name, value, false, row);
    }
  }

  // getopt_long_only where a letter is declared: the long option if there is
  // one, the letter otherwise.
  lemma LetterOrLong(cfg: Config, b: seq<string>, pos: nat, name: string, value: Option<string>, u: string, v: string)
    requires cfg.IsBsd() && cfg.longOptions.Some? && cfg.longOnly && |b| > 0 && 1 <= pos < |b[0]|
    requires b[0][pos..] == NameAndValue(name, value) && '=' !in name && Declares(cfg.options, u, b[0][pos], v)
    requires b[0][pos] == 'W' ==> |v| == 0 || v[0] != ';'
    ensures Scanning(b, pos)
    ensures var table, call := cfg.longOptions.value, Next(cfg, b, pos);
      (forall row: nat :: Chosen(table, name, true, true, row) ==> call == LongCall(cfg, b, table[row], row, value)) &&
      (Unclear(table, name, true, true) ==> call == BadLong) &&
      (Unknown(table, name, true) ==> call == LetterCall(cfg, b, pos, v))
  {
    TriesBoth(cfg, b, pos, u, v);
    BadLongMeans(cfg, b, name, value, true);
    ShortMeans(cfg, b, pos, u, v);
    hide Next, ReadLong, ReadShort, LetterCall, LongCall, Chosen, Unclear, Unknown, NameAndValue, Declares;
    forall row: nat | Chosen(cfg.longOptions.value, name, true, true, row)
      ensures Next(cfg, b, pos) == LongCall(cfg, b, cfg.longOptions.value[row], row, value)
    {
      LongMeans(cfg, b, name, value, true, row);
    }
  }

  lemma TriesBoth(cfg: Config, b: seq<string>, pos: nat, u: string, v: string)
    requires cfg.IsBsd() && cfg.longOptions.Some? && cfg.longOnly && |b| > 0 && 1 <= pos < |b[0]|
    requires Declares(cfg.options, u, b[0][pos], v)
    ensures Scanning(b, pos)
    ensures var r := ReadLong(cfg, b, b[0][pos..], true);
      Next(cfg, b, pos) == if r.Some? then r.value else ReadShort(cfg, b, pos)
  {
    hide ReadLong, ReadShort;
    LettersOf(cfg, u, b[0][pos], v);
    assert Next(cfg, b, pos) == ReadBsd(cfg, b, pos);
  }

  // -W with ";" behind it in the option string: what follows, in this argument
  // or the next, is a long option.
  lemma WMeans(cfg: Config, b: seq<string>, pos: nat, u: string, v: string, name: string, value: Option<string>)
    requires cfg.IsBsd() && !cfg.longOnly && cfg.longOptions.Some? && |b| > 0 && 1 <= pos < |b[0]| && b[0][pos] == 'W'
    requires Declares(cfg.options, u, 'W', v) && |v| > 0 && v[0] == ';' && '=' !in name
    requires var text := NameAndValue(name, value);
      if pos + 1 < |b[0]| then b[0][pos + 1..] == text else |b| > 1 ==> b[1] == text
    ensures Scanning(b, pos)
    ensures var table, call := cfg.longOptions.value, Next(cfg, b, pos);
      if pos + 1 == |b[0]| && |b| == 1 then
        call == Call(0, 1, 0, Answer(MissingValue(cfg.options), None, Some('W' as int), None, false), true, None)
      else
        var (rest, n) := if pos + 1 < |b[0]| then (b, 0) else (b[1..], 1);
        (forall row: nat :: Chosen(table, name, false, false, row) ==>
          call == var d := LongCall(cfg, rest, table[row], row, value); d.(take := d.take + n)) &&
        (Unknown(table, name, false) || Unclear(table, name, false, false) ==> call == BadLong.(take := 1 + n))
  {
    ReadsAsShort(cfg, b, pos);
    LetterDeclared(cfg, u, 'W', v, |b[0][pos + 1..]| == 0);
    MissingValueIs(cfg);
    hide Next, Classify, ReadLong, Config.BadArg, MissingValue, LongCall, Chosen, Unclear, Unknown, NameAndValue, Declares;
    var rest := if pos + 1 < |b[0]| || |b| == 1 then b else b[1..];
    BadLongMeans(cfg, rest, name, value, false);
    forall row: nat | Chosen(cfg.longOptions.value, name, false, false, row)
      ensures ReadLong(cfg, rest, NameAndValue(name, value), false) == Some(LongCall(cfg, rest, cfg.longOptions.value[row], row, value))
    {
      LongMeans(cfg, rest, name, value, false, row);
    }
  }

  // ------------------------------------- long options of the second engine

  // The first row of this very name, if at most one abbreviated row stands
  // before it; without such a row, the only one that name abbreviates.
  ghost predicate MingwChosen(table: seq<LongOption>, name: string, row: nat) {
    row < |table| &&
    if exists i :: 0 <= i < |table| && table[i].name == name then
      table[row].name == name && (forall i :: 0 <= i < row ==> table[i].name != name) &&
      (forall i, j :: 0 <= i < j < row ==> !(name <= table[i].name) || !(name <= table[j].name))
    else
      name <= table[row].name && forall i :: 0 <= i < |table| && i != row ==> !(name <= table[i].name)
  }

  // Two abbreviated rows, before any of this very name.
  ghost predicate MingwUnclear(table: seq<LongOption>, name: string) {
    exists i, j ::
      0 <= i < j < |table| && name <= table[i].name && name <= table[j].name && forall k :: 0 <= k <= j ==> table[k].name != name
  }

  lemma FirstOfChosen(table: seq<LongOption>, name: string, row: nat)
    requires MingwChosen(table, name, row)
    ensures FindFirst(table, name) == Match(row)
  {
    if exists i :: 0 <= i < |table| && table[i].name == name {
      assert FirstExact(table, name, 0) == Some(row);
    } else {
      assert PartialAt(table, name, false, row);
    }
  }

  lemma FirstOfUnknown(table: seq<LongOption>, name: string)
    requires Unknown(table, name, false)
    ensures FindFirst(table, name) == NoMatch
  {
  }

  lemma FirstOfUnclear(table: seq<LongOption>, name: string)
    requires MingwUnclear(table, name)
    ensures FindFirst(table, name) == Ambiguous
  {
    var i, j :| 0 <= i < j < |table| && name <= table[i].name && name <= table[j].name &&
      forall k :: 0 <= k <= j ==> table[k].name != name;
    assert PartialAt(table, name, false, i) && PartialAt(table, name, false, j);
  }

  // The second engine reports val whether or not there is a flag, sets the
  // index even when it rejects the argument, and leaves optarg on the text
  // behind "=".
  function MingwLongCall(cfg: Config, rest: seq<string>, o: LongOption, row: nat, value: Option<string>): Call {
    var val := if o.flag == None then o.val else 0;
    if o.hasArg == NoArgument && value.Some? then
      Call(0, 1, 0, Answer('?' as int, value, Some(o.val), Some(row), false), false, None)
    else if o.hasArg == RequiredArgument && value.None? then
      if |rest| > 1 then Call(0, 2, 0, Answer(val, Some(rest[1]), None, Some(row), false), false, None)
      else Call(0, 1, 0, Answer(MissingValue(cfg.options), None, Some(o.val), Some(row), false), true, None)
    else Call(0, 1, 0, Answer(val, value, None, Some(row), false), false, None)
  }

  function MingwBadLong(value: Option<string>): Call {
    Call(0, 1, 0, Answer('?' as int, value, Some(0), None, false), false, None)
  }

  lemma MingwReadsLong(cfg: Config, b: seq<string>, text: string)
    requires cfg.IsMingw() && cfg.longOptions.Some?
    requires |b| > 0 && |b[0]| > 2 && b[0][0] == '-' && b[0][1] == '-' && b[0][2..] == text
    ensures Next(cfg, b, 0) == ReadMingwLong(cfg, b, text)
  {
    hide ReadMingwLong;
  }

  // One long option, by the row that the search finds.
  lemma MingwRowMeans(cfg: Config, b: seq<string>, name: string, value: Option<string>)
    requires cfg.longOptions.Some? && PlainNames(cfg.longOptions.value) && '=' !in name
    ensures ReadMingwLong(cfg, b, NameAndValue(name, value)) ==
      match FindFirst(cfg.longOptions.value, name)
      case NoMatch => MingwBadLong(None)
      case Ambiguous => MingwBadLong(value)
      case Match(row) => MingwLongCall(cfg, b, cfg.longOptions.value[row], row, value)
  {
    SplitName(name, value);
    ResolveIsFindFirst(cfg.longOptions.value, NameAndValue(name, value));
    MissingValueIs(cfg);
    hide FindFirst, NameOf, ValueOf, Resolve, Config.BadArg, MissingValue, NameAndValue, PlainNames;
    match FindFirst(cfg.longOptions.value, name)
    case NoMatch =>
    case Ambiguous =>
    case Match(row) =>
      match cfg.longOptions.value[row].hasArg
      case NoArgument =>
      case OptionalArgument =>
      case RequiredArgument =>
  }

  lemma MingwLongMeans(cfg: Config, b: seq<string>, name: string, value: Option<string>)
    requires cfg.IsMingw() && cfg.longOptions.Some? && PlainNames(cfg.longOptions.value) && '=' !in name
    requires |b| > 0 && |b[0]| > 2 && b[0][0] == '-' && b[0][1] == '-' && b[0][2..] == NameAndValue(name, value)
    ensures var table, call := cfg.longOptions.value, Next(cfg, b, 0);
      (forall row: nat :: MingwChosen(table, name, row) ==> call == MingwLongCall(cfg, b, table[row], row, value)) &&
      (Unknown(table, name, false) ==> call == MingwBadLong(None)) && (MingwUnclear(table, name) ==> call == MingwBadLong(value))
  {
    var table := cfg.longOptions.value;
    MingwReadsLong(cfg, b, NameAndValue(name, value));
    MingwRowMeans(cfg, b, name, value);
    hide Next, ReadMingwLong, FindFirst, NameAndValue, MingwChosen, MingwUnclear, Unknown, MingwLongCall, MingwBadLong, PlainNames;
    if Unknown(table, name, false) {
      FirstOfUnknown(table, name);
    }
    if MingwUnclear(table, name) {
      FirstOfUnclear(table, name);
    }
    forall row: nat | MingwChosen(table, name, row)
      ensures Next(cfg, b, 0) == MingwLongCall(cfg, b, table[row], row, value)
    {
      FirstOfChosen(table, name, row);
    }
  }

  lemma MingwEveryName(table: seq<LongOption>, name: string)
    ensures Unknown(table, name, false) || MingwUnclear(table, name) || exists row: nat :: MingwChosen(table, name, row)
  {
    hide MingwChosen, MingwUnclear, Unknown;
    match FindFirst(table, name)
    case NoMatch => FirstNoMatch(table, name);
    case Ambiguous => FirstAmbiguous(table, name);
    case Match(row) => FirstMatch(table, name, row);
  }

  lemma FirstNoMatch(table: seq<LongOption>, name: string)
    requires FindFirst(table, name) == NoMatch
    ensures Unknown(table, name, false)
  {
    NothingFound(table, name, false, false);
  }

  lemma FirstAmbiguous(table: seq<LongOption>, name: string)
    requires FindFirst(table, name) == Ambiguous
    ensures MingwUnclear(table, name)
  {
    var p, q := FirstPartial(table, name, false, 0).value, SecondPartial(table, name).value;
    hide FindFirst, FirstPartial, SecondPartial, FirstExact;
    TwoAreUnclear(table, name, p, q);
  }

  lemma TwoAreUnclear(table: seq<LongOption>, name: string, i: nat, j: nat)
    requires i < j < |table| && name <= table[i].name && name <= table[j].name
    requires forall k :: 0 <= k <= j ==> table[k].name != name
    ensures MingwUnclear(table, name)
  {
  }

  lemma FirstMatch(table: seq<LongOption>, name: string, row: nat)
    requires FindFirst(table, name) == Match(row)
    ensures MingwChosen(table, name, row)
  {
    if FirstExact(table, name, 0).Some? {
      NoTwoBefore(table, name, row);
    } else {
      forall i | 0 <= i < |table| && i != row ensures !(name <= table[i].name) {
        assert !PartialAt(table, name, false, i);
      }
    }
  }

  lemma NoTwoBefore(table: seq<LongOption>, name: string, e: nat)
    requires FirstExact(table, name, 0) == Some(e)
    requires SecondPartial(table, name).Some? ==> e < SecondPartial(table, name).value
    ensures forall i, j :: 0 <= i < j < e ==> !(name <= table[i].name) || !(name <= table[j].name)
  {
    forall i, j | 0 <= i < j < e && name <= table[i].name && name <= table[j].name ensures false {
      assert PartialAt(table, name, false, i) && PartialAt(table, name, false, j);
    }
  }

  // ------------------------------------------------- operands and the end

  // "" and "-" are operands; a first '-' in the option string has operands
  // returned, a first '+' or POSIXLY_CORRECT stops at them, else they are
  // skipped.  The second engine learns of '+' through its conventions.
  lemma OperandMeans(cfg: Config, b: seq<string>)
    requires cfg.Valid() && |b| > 0 && (b[0] == "" || b[0] == "-" || b[0][0] != '-')
    ensures var call := Next(cfg, b, 0);
      if |cfg.options| > 0 && cfg.options[0] == '-' then
        call == Call(0, 1, 0, Answer(1, Some(b[0]), None, None, false), false, None)
      else if cfg.posixlyCorrect || (cfg.dialect == Bsd && |cfg.options| > 0 && cfg.options[0] == '+') then
        call == Call(0, 0, 0, Answer(-1, None, None, None, cfg.dialect == Mingw), false, Some(AtOperand))
      else
        var more := Next(cfg, b[1..], 0); call == more.(skip := more.skip + 1)
  {
    assert IsOperand(b[0]);
  }

  lemma EndMeans(cfg: Config, b: seq<string>)
    requires cfg.Valid()
    ensures b == [] ==>
      Next(cfg, b, 0) == Call(0, 0, 0, Answer(-1, None, None, None, cfg.dialect == Mingw), false, Some(EndOfVector))
    ensures b != [] && b[0] == "--" ==>
      Next(cfg, b, 0) == Call(0, 1, 0, Answer(-1, None, None, None, cfg.dialect == Mingw), false, Some(Marker))
  {
  }

  // A flag cell gets the val of its row when the option is accepted, which
  // then returns 0; no other cell changes, and no cell in any other case.
  lemma FlagStored(flags: map<nat, int>, cfg: Config, o: LongOption, row: nat, rest: seq<string>, value: Option<string>)
    requires cfg.longOptions.Some? && row < |cfg.longOptions.value| && o == cfg.longOptions.value[row]
    ensures var a := LongCall(cfg, rest, o, row, value).answer;
      Store(flags, cfg, a) == if a.longIndex == Some(row) && o.flag.Some? then flags[o.flag.value := o.val] else flags
    ensures var a := MingwLongCall(cfg, rest, o, row, value).answer;
      Store(flags, cfg, a) == if a.ret == 0 && o.flag.Some? then flags[o.flag.value := o.val] else flags
    ensures forall a: Answer :: a.longIndex == None ==> Store(flags, cfg, a) == flags
  {
  }
}
