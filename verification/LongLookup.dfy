// The lookup of a long option by name or abbreviation:
// src-fdkaac/missings/getopt.c, lines 246-285.
module LongLookup {
  import opened OptionTable

  datatype Lookup = NoMatch | Ambiguous | Match(index: nat)

  // name abbreviates row i, and the rule about single characters that could
  // also be a short option does not forbid it.
  predicate PartialAt(table: seq<LongOption>, name: string, shortToo: bool, i: nat)
    requires i < |table|
  {
    name <= table[i].name && name != table[i].name && !(shortToo && |name| == 1)
  }

  predicate Clashes(longOnly: bool, a: LongOption, b: LongOption) {
    longOnly || !SameAction(a, b)
  }

  function FirstExact(table: seq<LongOption>, name: string, i: nat): (r: Option<nat>)
    requires i <= |table|
    ensures r.Some? ==> i <= r.value < |table| && table[r.value].name == name
    ensures r.Some? ==> forall j :: i <= j < r.value ==> table[j].name != name
    ensures r.None? ==> forall j :: i <= j < |table| ==> table[j].name != name
    decreases |table| - i
  {
    if i == |table| then None
    else if table[i].name == name then Some(i)
    else FirstExact(table, name, i + 1)
  }

  function FirstPartial(table: seq<LongOption>, name: string, shortToo: bool, i: nat): (r: Option<nat>)
    requires i <= |table|
    ensures r.Some? ==> i <= r.value < |table| && PartialAt(table, name, shortToo, r.value)
    ensures r.Some? ==> forall j :: i <= j < r.value ==> !PartialAt(table, name, shortToo, j)
    ensures r.None? ==> forall j :: i <= j < |table| ==> !PartialAt(table, name, shortToo, j)
    decreases |table| - i
  {
    if i == |table| then None
    else if PartialAt(table, name, shortToo, i) then Some(i)
    else FirstPartial(table, name, shortToo, i + 1)
  }

  // The rule: an exact name wins; otherwise the first abbreviation, provided
  // that no later one clashes with it.
  function Find(table: seq<LongOption>, name: string, shortToo: bool, longOnly: bool): (r: Lookup)
    ensures r.Match? ==> r.index < |table|
  {
    var exact := FirstExact(table, name, 0);
    if exact.Some? then Match(exact.value) else
    var partial := FirstPartial(table, name, shortToo, 0);
    if partial.None? then NoMatch
    else if exists j :: partial.value < j < |table| && PartialAt(table, name, shortToo, j) &&
                        Clashes(longOnly, table[j], table[partial.value])
    then Ambiguous
    else Match(partial.value)
  }

  // The loop of parse_long_options.
  method LookUp(table: seq<LongOption>, name: string, shortToo: bool, longOnly: bool) returns (r: Lookup)
    ensures r == Find(table, name, shortToo, longOnly)
  {
    var match_ := -1;
    var exactMatch, secondPartialMatch := false, false;
    var i := 0;
    while i < |table|
      invariant 0 <= i <= |table| && -1 <= match_ < i
      invariant !exactMatch
      invariant forall j :: 0 <= j < i ==> table[j].name != name
      invariant match_ == -1 ==> forall j :: 0 <= j < i ==> !PartialAt(table, name, shortToo, j)
      invariant match_ >= 0 ==> PartialAt(table, name, shortToo, match_)
      invariant match_ >= 0 ==> forall j :: 0 <= j < match_ ==> !PartialAt(table, name, shortToo, j)
      invariant secondPartialMatch <==>
                  match_ >= 0 && exists j :: match_ < j < i && PartialAt(table, name, shortToo, j) &&
                                             Clashes(longOnly, table[j], table[match_])
    {
      if name <= table[i].name {
        if |table[i].name| == |name| {
          match_ := i;
          exactMatch := true;
          break;
        }
        if !(shortToo && |name| == 1) {
          assert PartialAt(table, name, shortToo, i);
          if match_ == -1 {
            match_ := i;
          } else if longOnly || table[i].hasArg != table[match_].hasArg ||
                    table[i].flag != table[match_].flag || table[i].val != table[match_].val {
            secondPartialMatch := true;
          }
        }
      }
      i := i + 1;
    }
    if !exactMatch && secondPartialMatch {
      r := Ambiguous;
    } else if match_ != -1 {
      r := Match(match_);
    } else {
      r := NoMatch;
    }
  }

  // ------------------------------------------------------ the declarative rule

  ghost predicate HasExact(table: seq<LongOption>, name: string) {
    exists i :: 0 <= i < |table| && table[i].name == name
  }

  ghost predicate HasPartial(table: seq<LongOption>, name: string, shortToo: bool) {
    exists i :: 0 <= i < |table| && PartialAt(table, name, shortToo, i)
  }

  // Some two abbreviated rows clash, in whatever order they stand.
  ghost predicate HasClash(table: seq<LongOption>, name: string, shortToo: bool, longOnly: bool) {
    exists i, j :: 0 <= i < |table| && 0 <= j < |table| && i != j &&
      PartialAt(table, name, shortToo, i) && PartialAt(table, name, shortToo, j) &&
      Clashes(longOnly, table[i], table[j])
  }

  // Find, without reference to a first row: the result kind is settled by
  // which rows exist, and a match is any row the rule allows.
  lemma LookupRule(table: seq<LongOption>, name: string, shortToo: bool, longOnly: bool)
    ensures var r := Find(table, name, shortToo, longOnly);
      (r.NoMatch? <==> !HasExact(table, name) && !HasPartial(table, name, shortToo)) &&
      (r.Ambiguous? <==> !HasExact(table, name) && HasClash(table, name, shortToo, longOnly)) &&
      (r.Match? && HasExact(table, name) ==> table[r.index].name == name) &&
      (r.Match? && !HasExact(table, name) ==>
        PartialAt(table, name, shortToo, r.index) &&
        forall j :: 0 <= j < |table| && j != r.index && PartialAt(table, name, shortToo, j) ==>
          !Clashes(longOnly, table[j], table[r.index]))
  {
    var exact := FirstExact(table, name, 0);
    if exact.None? && HasPartial(table, name, shortToo) {
      var m := FirstPartial(table, name, shortToo, 0).value;
      if HasClash(table, name, shortToo, longOnly) {
        ClashWithFirst(table, name, shortToo, longOnly, m);
      }
    }
  }

  lemma ClashWithFirst(table: seq<LongOption>, name: string, shortToo: bool, longOnly: bool, m: nat)
    requires HasClash(table, name, shortToo, longOnly) && FirstPartial(table, name, shortToo, 0) == Some(m)
    ensures exists k :: m < k < |table| && PartialAt(table, name, shortToo, k) &&
                        Clashes(longOnly, table[k], table[m])
  {
    var i, j :| 0 <= i < |table| && 0 <= j < |table| && i != j &&
      PartialAt(table, name, shortToo, i) && PartialAt(table, name, shortToo, j) &&
      Clashes(longOnly, table[i], table[j]);
    var k := if i != m && Clashes(longOnly, table[i], table[m]) then i else j;
    assert m < k && Clashes(longOnly, table[k], table[m]);
  }

  // What the caller of getopt_long observes of a lookup.
  datatype Observed = Nothing | Rejected | Action(hasArg: HasArg, flag: Option<nat>, val: int)

  function Observe(table: seq<LongOption>, r: Lookup): Observed
    requires r.Match? ==> r.index < |table|
  {
    match r
    case NoMatch => Nothing
    case Ambiguous => Rejected
    case Match(i) => Action(table[i].hasArg, table[i].flag, table[i].val)
  }

  ghost predicate ExactRowsAgree(table: seq<LongOption>, name: string) {
    forall i, j :: 0 <= i < |table| && 0 <= j < |table| && table[i].name == name == table[j].name ==>
      SameAction(table[i], table[j])
  }

  lemma RowMoves(a: seq<LongOption>, b: seq<LongOption>, i: nat) returns (j: nat)
    requires multiset(a) == multiset(b) && i < |a|
    ensures j < |b| && b[j] == a[i]
  {
    assert a[i] in multiset(a);
    assert a[i] in multiset(b);
    j :| 0 <= j < |b| && b[j] == a[i];
  }

  function Without(a: seq<LongOption>, i: nat): seq<LongOption>
    requires i < |a|
  {
    a[..i] + a[i + 1..]
  }

  lemma WithoutRow(a: seq<LongOption>, i: nat)
    requires i < |a|
    ensures multiset(a) == multiset{a[i]} + multiset(Without(a, i))
  {
    assert a == a[..i] + ([a[i]] + a[i + 1..]);
  }

  lemma WithoutMatched(a: seq<LongOption>, b: seq<LongOption>, i: nat, j: nat)
    requires multiset(a) == multiset(b) && i < |a| && j < |b| && a[i] == b[j]
    ensures multiset(Without(a, i)) == multiset(Without(b, j))
  {
    WithoutRow(a, i);
    WithoutRow(b, j);
    assert multiset(Without(a, i)) == multiset(a) - multiset{a[i]};
    assert multiset(Without(b, j)) == multiset(b) - multiset{b[j]};
  }

  // Two rows of a are matched by two rows of b.
  lemma TwoRowsMove(a: seq<LongOption>, b: seq<LongOption>, i: nat, k: nat) returns (j: nat, l: nat)
    requires multiset(a) == multiset(b) && i < |a| && k < |a| && i != k
    ensures j < |b| && l < |b| && j != l && b[j] == a[i] && b[l] == a[k]
  {
    j := RowMoves(a, b, i);
    WithoutMatched(a, b, i, j);
    var m := RowMoves(Without(a, i), Without(b, j), if k < i then k else k - 1);
    l := if m < j then m else m + 1;
  }

  lemma ExactMoves(a: seq<LongOption>, b: seq<LongOption>, name: string)
    requires multiset(a) == multiset(b) && HasExact(a, name)
    ensures HasExact(b, name)
  {
    var i :| 0 <= i < |a| && a[i].name == name;
    var j := RowMoves(a, b, i);
  }

  lemma PartialMoves(a: seq<LongOption>, b: seq<LongOption>, name: string, shortToo: bool)
    requires multiset(a) == multiset(b) && HasPartial(a, name, shortToo)
    ensures HasPartial(b, name, shortToo)
  {
    var i :| 0 <= i < |a| && PartialAt(a, name, shortToo, i);
    var j := RowMoves(a, b, i);
    assert PartialAt(b, name, shortToo, j);
  }

  lemma ClashMoves(a: seq<LongOption>, b: seq<LongOption>, name: string, shortToo: bool, longOnly: bool)
    requires multiset(a) == multiset(b) && HasClash(a, name, shortToo, longOnly)
    ensures HasClash(b, name, shortToo, longOnly)
  {
    var i, k :| 0 <= i < |a| && 0 <= k < |a| && i != k &&
      PartialAt(a, name, shortToo, i) && PartialAt(a, name, shortToo, k) &&
      Clashes(longOnly, a[i], a[k]);
    var j, l := TwoRowsMove(a, b, i, k);
    assert PartialAt(b, name, shortToo, j) && PartialAt(b, name, shortToo, l);
  }

  // Reordering the rows changes nothing the caller observes.
  lemma RowOrderIrrelevant(a: seq<LongOption>, b: seq<LongOption>, name: string, shortToo: bool, longOnly: bool)
    requires multiset(a) == multiset(b) && ExactRowsAgree(a, name)
    ensures Observe(a, Find(a, name, shortToo, longOnly)) == Observe(b, Find(b, name, shortToo, longOnly))
  {
    LookupRule(a, name, shortToo, longOnly);
    LookupRule(b, name, shortToo, longOnly);
    if HasExact(a, name) { ExactMoves(a, b, name); }
    if HasExact(b, name) { ExactMoves(b, a, name); }
    if HasPartial(a, name, shortToo) { PartialMoves(a, b, name, shortToo); }
    if HasPartial(b, name, shortToo) { PartialMoves(b, a, name, shortToo); }
    if HasClash(a, name, shortToo, longOnly) { ClashMoves(a, b, name, shortToo, longOnly); }
    if HasClash(b, name, shortToo, longOnly) { ClashMoves(b, a, name, shortToo, longOnly); }
    var r, q := Find(a, name, shortToo, longOnly), Find(b, name, shortToo, longOnly);
    if r.Match? && q.Match? {
      var j := RowMoves(b, a, q.index);
      if HasExact(a, name) {
        assert SameAction(a[r.index], a[j]);
      } else {
        assert PartialAt(a, name, shortToo, j);
        assert j != r.index ==> !Clashes(longOnly, a[j], a[r.index]);
      }
    }
  }

  // The condition is exact: a lookup is independent of the row order if and
  // only if the rows that carry this very name agree.
  lemma RowOrderExactly(a: seq<LongOption>, name: string, shortToo: bool, longOnly: bool)
    ensures ExactRowsAgree(a, name) <==>
      forall b :: multiset(a) == multiset(b) ==>
        Observe(a, Find(a, name, shortToo, longOnly)) == Observe(b, Find(b, name, shortToo, longOnly))
  {
    if ExactRowsAgree(a, name) {
      forall b | multiset(a) == multiset(b)
        ensures Observe(a, Find(a, name, shortToo, longOnly)) == Observe(b, Find(b, name, shortToo, longOnly))
      {
        RowOrderIrrelevant(a, b, name, shortToo, longOnly);
      }
    } else {
      var b := OrderMatters(a, name, shortToo, longOnly);
    }
  }

  lemma OrderMatters(a: seq<LongOption>, name: string, shortToo: bool, longOnly: bool) returns (b: seq<LongOption>)
    requires !ExactRowsAgree(a, name)
    ensures multiset(a) == multiset(b)
    ensures Observe(a, Find(a, name, shortToo, longOnly)) != Observe(b, Find(b, name, shortToo, longOnly))
  {
    var i, j :| 0 <= i < |a| && 0 <= j < |a| && a[i].name == name == a[j].name &&
      !SameAction(a[i], a[j]);
    var f := FirstExact(a, name, 0).value;
    var k := if SameAction(a[f], a[i]) then j else i;
    b := [a[k]] + Without(a, k);
    WithoutRow(a, k);
    assert b[0].name == name;
    assert Find(b, name, shortToo, longOnly) == Match(0);
    assert Find(a, name, shortToo, longOnly) == Match(f);
  }
}
