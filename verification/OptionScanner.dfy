// What one call of getopt_internal or getopt_parse reads, said without moving
// anything: a read-only scanner over the arguments not scanned yet
// (src-fdkaac/missings/getopt.c, lines 205-583; src-fdk-aac/win32/getopt.h,
// lines 306-362, 364-420 and 534-867).
module OptionScanner {
  import opened OptionTable
  import opened LongLookup

  const DONE := -1
  const IN_ORDER := 1
  const BAD_CHAR := '?' as int

  // The two engines read options a little differently.
  datatype Dialect = Bsd | Mingw

  // The arguments of a scan that stay the same from call to call.
  // longOptions is None for plain getopt.
  datatype Config = Config(dialect: Dialect, options: string, longOptions: Option<seq<LongOption>>,
                           longOnly: bool, posixlyCorrect: bool)
  {
    predicate IsBsd() {
      dialect.Bsd? && Valid()
    }

    predicate IsMingw() {
      dialect.Mingw? && Valid()
    }

    // No row returns -1, which would read as the end of the scan.  The second
    // engine is modelled for getopt and getopt_long.
    predicate Valid() {
      (dialect.Mingw? ==> !longOnly) &&
      (longOptions.Some? ==>
        forall i :: 0 <= i < |longOptions.value| ==> ValueOrZero(longOptions.value[i]) != DONE)
    }

    function Letters(): string {
      if |options| > 0 && options[0] in "+-" then options[1..] else options
    }

    function Operands(): OperandRule {
      if |options| > 0 && options[0] == '-' then ReturnInOrder
      else if posixlyCorrect || (dialect.Bsd? && |options| > 0 && options[0] == '+') then StopAtFirst
      else Permute
    }

    function BadArg(): int {
      if |Letters()| > 0 && Letters()[0] == ':' then ':' as int else BAD_CHAR
    }
  }

  // What happens to an argument that is not an option.
  datatype OperandRule = ReturnInOrder | StopAtFirst | Permute

  // What the caller sees of a call: the value returned, optarg, and the
  // values stored in optopt and through idx, if any.  keeps tells that optarg
  // is left as it was.
  datatype Answer = Answer(ret: int, optarg: Option<string>, optopt: Option<int>, longIndex: Option<nat>, keeps: bool)

  datatype Stop = EndOfVector | Marker | AtOperand | StrayDash

  // One call: it skips operands, then takes arguments.  pos is the place in
  // the next argument when the call ends inside a cluster of short options,
  // else 0.  missing tells that an option lacked its argument.
  datatype Call = Call(skip: nat, take: nat, pos: nat, answer: Answer, missing: bool, stop: Option<Stop>)

  function Read(take: nat, pos: nat, ret: int, optarg: Option<string>, longIndex: Option<nat>): Call {
    Call(0, take, pos, Answer(ret, optarg, None, longIndex, false), false, None)
  }

  function Fail(take: nat, pos: nat, ret: int, optopt: int, missing: bool): Call {
    Call(0, take, pos, Answer(ret, None, Some(optopt), None, false), missing, None)
  }

  function Finish(take: nat, why: Stop): Call {
    Call(0, take, 0, Answer(DONE, None, None, None, false), false, Some(why))
  }

  // The end of a scan: only the first engine clears optarg.
  function Stops(cfg: Config, take: nat, why: Stop): Call {
    Finish(take, why).(answer := Answer(DONE, None, None, None, cfg.dialect.Mingw?))
  }

  predicate IsOperand(arg: string) {
    |arg| == 0 || arg[0] != '-' || arg == "-"
  }

  predicate IsMarker(arg: string) {
    arg == "--"
  }

  // The name part of "name=value".
  function NameOf(text: string): string {
    text[..IndexOf(text, '=')]
  }

  function ValueOf(text: string): Option<string> {
    var i := IndexOf(text, '=');
    if i < |text| then Some(text[i + 1..]) else None
  }

  // parse_long_options on text, which belongs to rest[0].  None stands for
  // its own return value -1: not a long option, try a short one.
  function ReadLong(cfg: Config, rest: seq<string>, text: string, shortToo: bool): Option<Call>
    requires cfg.longOptions.Some?
  {
    var table := cfg.longOptions.value;
    match Find(table, NameOf(text), shortToo, cfg.longOnly)
    case Ambiguous => Some(Fail(1, 0, BAD_CHAR, 0, false))
    case NoMatch => if shortToo then None else Some(Fail(1, 0, BAD_CHAR, 0, false))
    case Match(i) => Some(ReadLongArgument(cfg, rest, ValueOf(text), i))
  }

  function ReadLongArgument(cfg: Config, rest: seq<string>, value: Option<string>, i: nat): Call
    requires cfg.longOptions.Some? && i < |cfg.longOptions.value|
  {
    var o := cfg.longOptions.value[i];
    match o.hasArg
    case NoArgument =>
      if value.Some? then Fail(1, 0, BAD_CHAR, ValueOrZero(o), false)
      else Read(1, 0, ValueOrZero(o), None, Some(i))
    case OptionalArgument => Read(1, 0, ValueOrZero(o), value, Some(i))
    case RequiredArgument =>
      if value.Some? then Read(1, 0, ValueOrZero(o), value, Some(i))
      else if |rest| >= 2 then Read(2, 0, ValueOrZero(o), Some(rest[1]), Some(i))
      else Fail(1, 0, cfg.BadArg(), ValueOrZero(o), true)
  }

  // "-W name" and "-Wname": the rest of the argument, or the next one, is
  // read as a long option.
  function ReadW(cfg: Config, rest: seq<string>, after: string): Call
    requires cfg.longOptions.Some? && |rest| > 0
  {
    if |after| > 0 then ReadLong(cfg, rest, after, false).value
    else if |rest| == 1 then Fail(1, 0, cfg.BadArg(), 'W' as int, true)
    else var r := ReadLong(cfg, rest[1..], rest[1], false).value; r.(take := r.take + 1)
  }

  // A letter that takes an argument: what is left of rest[0], or rest[1].
  function ReadShortArgument(cfg: Config, rest: seq<string>, c: char, after: string, optional: bool): Call
    requires |rest| > 0
  {
    if |after| > 0 then Read(1, 0, c as int, Some(after), None)
    else if optional then Read(1, 0, c as int, None, None)
    else if |rest| == 1 then Fail(1, 0, cfg.BadArg(), c as int, true)
    else Read(2, 0, c as int, Some(rest[1]), None)
  }

  // What the option string says about c; "last" when no text follows it.
  datatype Letter = Illegal | Dash | LongFollows | Plain | TakesArgument(optional: bool)

  function Classify(cfg: Config, c: char, last: bool): (l: Letter)
    ensures l.LongFollows? ==> cfg.longOptions.Some?
  {
    var letters := cfg.Letters();
    if c == ':' || (c == '-' && !last) || c !in letters then
      if c == '-' && last then Dash else Illegal
    else
      var i := IndexOf(letters, c);
      if cfg.longOptions.Some? && c == 'W' && CharAt(letters, i + 1) == ';' then LongFollows
      else if CharAt(letters, i + 1) != ':' then Plain
      else TakesArgument(CharAt(letters, i + 2) == ':')
  }

  // The short option at rest[0][pos].
  function ReadShort(cfg: Config, rest: seq<string>, pos: nat): Call
    requires |rest| > 0 && pos < |rest[0]|
  {
    var c := rest[0][pos];
    var after := rest[0][pos + 1..];
    var take, next := if |after| == 0 then 1 else 0, if |after| == 0 then 0 else pos + 1;
    match Classify(cfg, c, |after| == 0)
    case Illegal => Fail(take, next, BAD_CHAR, c as int, false)
    case Dash => Finish(0, StrayDash)
    case LongFollows => ReadW(cfg, rest, after)
    case Plain => Read(take, next, c as int, None, None)
    case TakesArgument(optional) => ReadShortArgument(cfg, rest, c, after, optional)
  }

  function ReadBsd(cfg: Config, rest: seq<string>, pos: nat): Call
    requires |rest| > 0 && pos < |rest[0]|
  {
    var text := rest[0][pos..];
    if cfg.longOptions.Some? && text[0] == '-' then
      ReadLong(cfg, rest, text[1..], false).value
    else if cfg.longOptions.Some? && cfg.longOnly then
      var r := ReadLong(cfg, rest, text, text[0] != ':' && text[0] in cfg.Letters());
      if r.Some? then r.value else ReadShort(cfg, rest, pos)
    else
      ReadShort(cfg, rest, pos)
  }

  // ------------------------------------------------------- the second engine

  // getopt_match_long: how text relates to the name of a row, and the text
  // behind "=" if the comparison got there.
  datatype Likeness = Unlike | Abbreviates(value: Option<string>) | Equals(value: Option<string>)

  function Compare(text: string, name: string): Likeness {
    if |text| == 0 then (if |name| == 0 then Equals(None) else Abbreviates(None))
    else if |name| > 0 && text[0] == name[0] then Compare(text[1..], name[1..])
    else if text[0] == '=' then (if |name| == 0 then Equals(Some(text[1..])) else Abbreviates(Some(text[1..])))
    else Unlike
  }

  datatype Resolution = Unmatched | Ambiguity(value: Option<string>) | Resolved(row: nat, value: Option<string>)

  // The rows from i on: the first exact name wins, unless a second
  // abbreviation comes before it.
  function Resolve(table: seq<LongOption>, text: string, i: nat, matched: Option<nat>, value: Option<string>): (r: Resolution)
    requires i <= |table| && (matched.Some? ==> matched.value < i)
    ensures r.Resolved? ==> r.row < |table|
    decreases |table| - i
  {
    if i == |table| then (if matched.Some? then Resolved(matched.value, value) else Unmatched)
    else
      match Compare(text, table[i].name)
      case Unlike => Resolve(table, text, i + 1, matched, value)
      case Equals(v) => Resolved(i, if v.Some? then v else value)
      case Abbreviates(v) =>
        if matched.Some? then Ambiguity(if v.Some? then v else value)
        else Resolve(table, text, i + 1, Some(i), if v.Some? then v else value)
  }

  function Reject(take: nat, ret: int, optarg: Option<string>, optopt: int, row: Option<nat>, missing: bool): Call {
    Call(0, take, 0, Answer(ret, optarg, Some(optopt), row, false), missing, None)
  }

  // getopt_resolved.
  function ReadResolved(cfg: Config, rest: seq<string>, row: nat, value: Option<string>): Call
    requires cfg.longOptions.Some? && row < |cfg.longOptions.value|
  {
    var o := cfg.longOptions.value[row];
    match o.hasArg
    case NoArgument =>
      if value.Some? then Reject(1, BAD_CHAR, value, o.val, Some(row), false)
      else Read(1, 0, ValueOrZero(o), None, Some(row))
    case OptionalArgument => Read(1, 0, ValueOrZero(o), value, Some(row))
    case RequiredArgument =>
      if value.Some? then Read(1, 0, ValueOrZero(o), value, Some(row))
      else if |rest| >= 2 then Read(2, 0, ValueOrZero(o), Some(rest[1]), Some(row))
      else Reject(1, cfg.BadArg(), None, o.val, Some(row), true)
  }

  function ReadMingwLong(cfg: Config, rest: seq<string>, text: string): Call
    requires cfg.longOptions.Some?
  {
    match Resolve(cfg.longOptions.value, text, 0, None, None)
    case Unmatched => Reject(1, BAD_CHAR, None, 0, None, false)
    case Ambiguity(value) => Reject(1, BAD_CHAR, value, 0, None, false)
    case Resolved(row, value) => ReadResolved(cfg, rest, row, value)
  }

  // The letters that getopt_match searches.
  function MingwLetters(cfg: Config): string {
    var s := cfg.Letters();
    if |s| > 0 && s[0] == ':' then s[1..] else s
  }

  function MingwClassify(cfg: Config, c: char): Letter {
    var letters := MingwLetters(cfg);
    var i := IndexOf(letters, c);
    if i == |letters| then Illegal
    else if CharAt(letters, i + 1) != ':' then Plain
    else TakesArgument(CharAt(letters, i + 2) == ':')
  }

  function ReadMingwArgument(cfg: Config, rest: seq<string>, c: char, after: string, optional: bool): Call
    requires |rest| > 0
  {
    var call := Call(0, 1, 0, Answer(c as int, None, Some(c as int), None, false), false, None);
    if |after| > 0 then call.(answer := call.answer.(optarg := Some(after)))
    else if optional then call
    else if |rest| > 1 then call.(take := 2, answer := call.answer.(optarg := Some(rest[1])))
    else Reject(1, cfg.BadArg(), Some(""), c as int, None, true)
  }

  function ReadMingwShort(cfg: Config, rest: seq<string>, pos: nat): Call
    requires |rest| > 0 && pos < |rest[0]|
  {
    var c := rest[0][pos];
    var after := rest[0][pos + 1..];
    var take, next := if |after| == 0 then 1 else 0, if |after| == 0 then 0 else pos + 1;
    match MingwClassify(cfg, c)
    case TakesArgument(optional) => ReadMingwArgument(cfg, rest, c, after, optional)
    case Plain => Call(0, take, next, Answer(c as int, None, Some(c as int), None, false), false, None)
    case _ => Call(0, take, next, Answer(BAD_CHAR, None, Some(c as int), None, true), false, None)
  }

  // Long options are recognised at the start of an argument only.
  function ReadMingw(cfg: Config, rest: seq<string>, pos: nat): Call
    requires |rest| > 0 && pos < |rest[0]|
  {
    if cfg.longOptions.Some? && pos == 1 && rest[0][1] == '-' then ReadMingwLong(cfg, rest, rest[0][2..])
    else ReadMingwShort(cfg, rest, pos)
  }

  function ReadOption(cfg: Config, rest: seq<string>, pos: nat): Call
    requires |rest| > 0 && pos < |rest[0]|
  {
    if cfg.dialect.Bsd? then ReadBsd(cfg, rest, pos) else ReadMingw(cfg, rest, pos)
  }

  // ------------------------------------------------------------- one call

  // A scan state: pos > 0 is a place inside rest[0].
  predicate Scanning(rest: seq<string>, pos: nat) {
    pos > 0 ==> |rest| > 0 && pos < |rest[0]|
  }

  function Next(cfg: Config, rest: seq<string>, pos: nat): Call
    requires Scanning(rest, pos)
    decreases rest
  {
    if pos > 0 then ReadOption(cfg, rest, pos)
    else if |rest| == 0 then Stops(cfg, 0, EndOfVector)
    else if IsOperand(rest[0]) then
      match cfg.Operands()
      case ReturnInOrder => Read(1, 0, IN_ORDER, Some(rest[0]), None)
      case StopAtFirst => Stops(cfg, 0, AtOperand)
      case Permute => var n := Next(cfg, rest[1..], 0); n.(skip := n.skip + 1)
    else if IsMarker(rest[0]) then Stops(cfg, 1, Marker)
    else ReadOption(cfg, rest, 1)
  }

  // ------------------------------------------------------ a call in general

  // The shape of every call: how far it goes and what -1 means.
  ghost predicate WellFormed(c: Call, rest: seq<string>, pos: nat) {
    var n := c.skip + c.take;
    n <= |rest| &&
    (c.pos > 0 ==> c.take == 0 && c.skip < |rest| && c.pos < |rest[c.skip]| &&
                   (c.skip == 0 ==> c.pos > pos)) &&
    (c.stop.Some? <==> c.answer.ret == DONE) &&
    (c.stop.None? ==> c.take > 0 || c.pos > 0) &&
    (c.missing ==> n == |rest| && c.stop.None?)
  }

  lemma ReadLongArgumentShape(cfg: Config, rest: seq<string>, value: Option<string>, i: nat)
    requires cfg.Valid() && cfg.longOptions.Some? && |rest| > 0 && i < |cfg.longOptions.value|
    ensures var r := ReadLongArgument(cfg, rest, value, i);
            WellFormed(r, rest, 0) && r.skip == 0 && r.pos == 0 && r.take >= 1 && r.stop.None?
  {
    match cfg.longOptions.value[i].hasArg
    case NoArgument =>
    case OptionalArgument =>
    case RequiredArgument =>
  }

  lemma ReadLongShape(cfg: Config, rest: seq<string>, text: string, shortToo: bool)
    requires cfg.Valid() && cfg.longOptions.Some? && |rest| > 0
    ensures var r := ReadLong(cfg, rest, text, shortToo);
            (r.None? ==> shortToo) &&
            (r.Some? ==> WellFormed(r.value, rest, 0) && r.value.skip == 0 && r.value.pos == 0 &&
                         r.value.take >= 1 && r.value.stop.None?)
  {
    match Find(cfg.longOptions.value, NameOf(text), shortToo, cfg.longOnly)
    case Ambiguous =>
    case NoMatch =>
    case Match(i) => ReadLongArgumentShape(cfg, rest, ValueOf(text), i);
  }

  lemma ReadWShape(cfg: Config, rest: seq<string>, after: string)
    requires cfg.Valid() && cfg.longOptions.Some? && |rest| > 0
    ensures WellFormed(ReadW(cfg, rest, after), rest, 0)
    ensures var r := ReadW(cfg, rest, after); r.skip == 0 && r.pos == 0 && r.take >= 1 && r.stop.None?
  {
    if |after| > 0 {
      ReadLongShape(cfg, rest, after, false);
    } else if |rest| > 1 {
      ReadLongShape(cfg, rest[1..], rest[1], false);
    }
  }

  lemma ReadShortShape(cfg: Config, rest: seq<string>, pos: nat)
    requires cfg.Valid() && |rest| > 0 && pos < |rest[0]|
    ensures WellFormed(ReadShort(cfg, rest, pos), rest, pos)
    ensures ReadShort(cfg, rest, pos).skip == 0
  {
    var after := rest[0][pos + 1..];
    match Classify(cfg, rest[0][pos], |after| == 0)
    case Illegal =>
    case Dash =>
    case LongFollows => ReadWShape(cfg, rest, after);
    case Plain =>
    case TakesArgument(_) =>
  }

  lemma ReadBsdShape(cfg: Config, rest: seq<string>, pos: nat)
    requires cfg.Valid() && |rest| > 0 && pos < |rest[0]|
    ensures WellFormed(ReadBsd(cfg, rest, pos), rest, pos)
    ensures ReadBsd(cfg, rest, pos).skip == 0
  {
    var text := rest[0][pos..];
    if cfg.longOptions.Some? {
      ReadLongShape(cfg, rest, text[1..], false);
      ReadLongShape(cfg, rest, text, text[0] != ':' && text[0] in cfg.Letters());
    }
    ReadShortShape(cfg, rest, pos);
  }

  lemma ReadResolvedShape(cfg: Config, rest: seq<string>, row: nat, value: Option<string>)
    requires cfg.Valid() && cfg.longOptions.Some? && row < |cfg.longOptions.value| && |rest| > 0
    ensures var r := ReadResolved(cfg, rest, row, value);
      WellFormed(r, rest, 0) && r.skip == 0 && r.pos == 0 && r.take >= 1 && r.stop.None?
  {
    match cfg.longOptions.value[row].hasArg
    case NoArgument =>
    case OptionalArgument =>
    case RequiredArgument =>
  }

  lemma ReadMingwLongShape(cfg: Config, rest: seq<string>, text: string)
    requires cfg.Valid() && cfg.longOptions.Some? && |rest| > 0
    ensures var r := ReadMingwLong(cfg, rest, text);
      WellFormed(r, rest, 0) && r.skip == 0 && r.pos == 0 && r.take >= 1 && r.stop.None?
  {
    hide ReadResolved;
    match Resolve(cfg.longOptions.value, text, 0, None, None)
    case Unmatched =>
    case Ambiguity(_) =>
    case Resolved(row, value) => ReadResolvedShape(cfg, rest, row, value);
  }

  lemma ReadMingwShortShape(cfg: Config, rest: seq<string>, pos: nat)
    requires |rest| > 0 && pos < |rest[0]|
    ensures var r := ReadMingwShort(cfg, rest, pos);
      WellFormed(r, rest, pos) && r.skip == 0 && r.stop.None?
  {
    hide MingwClassify;
    match MingwClassify(cfg, rest[0][pos])
    case TakesArgument(_) =>
    case Plain =>
    case _ =>
  }

  lemma ReadMingwShape(cfg: Config, rest: seq<string>, pos: nat)
    requires cfg.Valid() && |rest| > 0 && pos < |rest[0]|
    ensures var r := ReadMingw(cfg, rest, pos);
      WellFormed(r, rest, pos) && r.skip == 0 && r.stop.None?
  {
    hide ReadMingwLong, ReadMingwShort;
    if cfg.longOptions.Some? && pos == 1 && rest[0][1] == '-' {
      ReadMingwLongShape(cfg, rest, rest[0][2..]);
    } else {
      ReadMingwShortShape(cfg, rest, pos);
    }
  }

  lemma ReadOptionShape(cfg: Config, rest: seq<string>, pos: nat)
    requires cfg.Valid() && |rest| > 0 && pos < |rest[0]|
    ensures WellFormed(ReadOption(cfg, rest, pos), rest, pos)
    ensures ReadOption(cfg, rest, pos).skip == 0
  {
    hide ReadBsd, ReadMingw;
    ReadBsdShape(cfg, rest, pos);
    ReadMingwShape(cfg, rest, pos);
  }

  lemma {:induction false} NextShape(cfg: Config, rest: seq<string>, pos: nat)
    requires cfg.Valid() && Scanning(rest, pos)
    ensures WellFormed(Next(cfg, rest, pos), rest, pos)
    decreases rest
  {
    hide ReadOption;
    if pos > 0 {
      ReadOptionShape(cfg, rest, pos);
    } else if |rest| > 0 {
      if IsOperand(rest[0]) {
        NextShape(cfg, rest[1..], 0);
      } else if !IsMarker(rest[0]) {
        ReadOptionShape(cfg, rest, 1);
      }
    }
  }
}
