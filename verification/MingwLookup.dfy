// The long-option lookup of src-fdk-aac/win32/getopt.h (lines 320-362 and
// 744-827) as a rule, and where it differs from that of the other engine.
module MingwLookup {
  import opened OptionTable
  import opened LongLookup
  import opened OptionScanner
  import opened OptionWords

  ghost predicate PlainNames(table: seq<LongOption>) {
    forall i :: 0 <= i < |table| ==> '=' !in table[i].name
  }

  lemma {:induction false} CompareMeans(text: string, name: string)
    requires '=' !in name
    ensures Compare(text, name) ==
      if NameOf(text) == name then Equals(ValueOf(text))
      else if NameOf(text) <= name then Abbreviates(ValueOf(text))
      else Unlike
  {
    if |text| > 0 && text[0] != '=' {
      var rest := text[1..];
      SplitLetter(text);
      if |name| > 0 && text[0] == name[0] {
        CompareMeans(rest, name[1..]);
        assert name == [name[0]] + name[1..];
      }
    }
  }

  lemma SplitLetter(text: string)
    requires |text| > 0 && text[0] != '='
    ensures NameOf(text) == [text[0]] + NameOf(text[1..]) && ValueOf(text) == ValueOf(text[1..])
  {
    var i := IndexOf(text[1..], '=');
    assert IndexOf(text, '=') == 1 + i;
    if i < |text[1..]| {
      assert text[1 + i + 1..] == text[1..][i + 1..];
    }
  }

  function SecondPartial(table: seq<LongOption>, name: string): Option<nat> {
    var p := FirstPartial(table, name, false, 0);
    if p.Some? then FirstPartial(table, name, false, p.value + 1) else None
  }

  // The first exact name wins unless two abbreviations stand before it; two
  // abbreviations are ambiguous whatever their rows say.
  function FindFirst(table: seq<LongOption>, name: string): (r: Lookup)
    ensures r.Match? ==> r.index < |table|
  {
    var e, p, q := FirstExact(table, name, 0), FirstPartial(table, name, false, 0), SecondPartial(table, name);
    if e.Some? && (q.None? || e.value < q.value) then Match(e.value)
    else if q.Some? then Ambiguous
    else if p.Some? then Match(p.value)
    else NoMatch
  }

  function AsResolution(r: Lookup, value: Option<string>): Resolution {
    match r
    case NoMatch => Unmatched
    case Ambiguous => Ambiguity(value)
    case Match(i) => Resolved(i, value)
  }

  lemma ResolveIsFindFirst(table: seq<LongOption>, text: string)
    requires PlainNames(table)
    ensures Resolve(table, text, 0, None, None) == AsResolution(FindFirst(table, NameOf(text)), ValueOf(text))
  {
    ResolveFrom(table, text, 0, None);
  }

  lemma {:induction false} ResolveFrom(table: seq<LongOption>, text: string, i: nat, matched: Option<nat>)
    requires PlainNames(table) && i <= |table|
    requires forall j :: 0 <= j < i ==> table[j].name != NameOf(text)
    requires matched.Some? ==> matched.value < i && PartialAt(table, NameOf(text), false, matched.value)
    requires forall j :: 0 <= j < i && matched != Some(j) ==> !PartialAt(table, NameOf(text), false, j)
    ensures Resolve(table, text, i, matched, if matched.Some? then ValueOf(text) else None) ==
            AsResolution(FindFirst(table, NameOf(text)), ValueOf(text))
    decreases |table| - i
  {
    hide Compare, NameOf, ValueOf;
    var name := NameOf(text);
    if i < |table| {
      CompareMeans(text, table[i].name);
      if name != table[i].name {
        if !(name <= table[i].name) {
          ResolveFrom(table, text, i + 1, matched);
        } else if matched.None? {
          ResolveFrom(table, text, i + 1, Some(i));
        } else {
          assert PartialAt(table, name, false, i);
          assert SecondPartial(table, name) == Some(i);
        }
      }
    }
  }

  // Two rows abbreviated by name before row n.
  ghost predicate TwoBefore(table: seq<LongOption>, name: string, n: nat)
    requires n <= |table|
  {
    exists i, j :: 0 <= i < j < n && PartialAt(table, name, false, i) && PartialAt(table, name, false, j)
  }

  // The two engines act alike on a name exactly when an exact row is not
  // preceded by two abbreviated ones and, without an exact row, several
  // abbreviated rows do not all ask for the same.
  lemma EnginesAgreeExactly(table: seq<LongOption>, name: string)
    ensures Observe(table, FindFirst(table, name)) == Observe(table, Find(table, name, false, false)) <==>
      match FirstExact(table, name, 0)
      case Some(e) => !TwoBefore(table, name, e)
      case None => TwoBefore(table, name, |table|) ==> HasClash(table, name, false, false)
  {
    var p, q := FirstPartial(table, name, false, 0), SecondPartial(table, name);
    match FirstExact(table, name, 0)
    case Some(e) =>
      assert TwoBefore(table, name, e) ==> q.Some? && q.value < e;
    case None =>
      LookupRule(table, name, false, false);
      assert TwoBefore(table, name, |table|) <==> q.Some?;
  }

  // A long option by a name that its row answers to is read with the argument
  // it is written with.
  lemma LongReadBack(cfg: Config, b: seq<string>, row: nat, a: Argument)
    requires cfg.IsMingw() && cfg.longOptions.Some? && row < |cfg.longOptions.value|
    requires PlainNames(cfg.longOptions.value)
    requires var o := cfg.longOptions.value[row];
      |o.name| > 0 && FindFirst(cfg.longOptions.value, o.name) == Match(row) && LongArgument(o, a) &&
      |b| > 0 && b[0] == "--" + (o.name + (if a.Attached? then "=" + a.text else ""))
    requires a.Separate? ==> |b| > 1 && b[1] == a.text
    ensures Next(cfg, b, 0) == Call(0, if a.Separate? then 2 else 1, 0,
                                    Answer(ValueOrZero(cfg.longOptions.value[row]), Given(a), None, Some(row), false), false, None)
  {
    hide FindFirst, NameOf, ValueOf, Resolve;
    var o := cfg.longOptions.value[row];
    var tail := if a.Attached? then "=" + a.text else "";
    BehindDashes(o.name + tail);
    SplitAtEquals(o.name, tail);
    ResolveIsFindFirst(cfg.longOptions.value, o.name + tail);
    assert Next(cfg, b, 0) == ReadMingwLong(cfg, b, o.name + tail);
    assert a.Attached? ==> tail[1..] == a.text;
    match a
    case NoneGiven =>
    case Attached(_) =>
    case Separate(_) =>
  }
}
