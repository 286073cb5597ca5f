// A vector during a scan: the arguments taken, the operands skipped, and the
// rest; what a call and a whole scan are to make of it.
module ScanView {
  import opened OptionTable
  import opened OptionScanner
  import opened OptionRuns

  // A pointer into a string.
  datatype Cursor = Cursor(text: string, pos: nat) {
    predicate AtEnd() {
      pos >= |text|
    }

    function Char(): char {
      CharAt(text, pos)
    }

    function Text(): string {
      if pos <= |text| then text[pos..] else ""
    }

    function Advance(): Cursor {
      Cursor(text, pos + 1)
    }
  }

  predicate IsOptionArgument(arg: string) {
    !IsOperand(arg) && !IsMarker(arg)
  }

  // *flag = val, when a long option whose row names a cell is accepted.
  function Store(flags: map<nat, int>, cfg: Config, a: Answer): map<nat, int> {
    if a.ret == 0 && a.longIndex.Some? && cfg.longOptions.Some? && a.longIndex.value < |cfg.longOptions.value| &&
       cfg.longOptions.value[a.longIndex.value].flag.Some?
    then flags[cfg.longOptions.value[a.longIndex.value].flag.value := cfg.longOptions.value[a.longIndex.value].val]
    else flags
  }

  // A scan seen from outside: the arguments taken, the operands skipped, the
  // arguments to be scanned and the place in the first of them.
  datatype View = View(taken: seq<string>, skipped: seq<string>, rest: seq<string>, pos: nat)

  // The view of a vector with skipped operands in [start, end) and arguments
  // to be scanned from i on.
  function ViewOf(a: seq<string>, start: nat, end: nat, i: nat, pos: nat): (v: View)
    requires start <= end <= i <= |a|
    ensures |v.taken| == start + (i - end) && |v.skipped| == end - start && v.rest == a[i..] && v.pos == pos
  {
    View(a[..start] + a[end..i], a[start..end], a[i..], pos)
  }

  lemma GrowBlock(a: seq<string>, start: nat, i: nat)
    requires start <= i < |a|
    ensures ViewOf(a, start, i + 1, i + 1, 0) == SkipOne(ViewOf(a, start, i, i, 0))
  {
  }

  lemma TakeSome(a: seq<string>, start: nat, end: nat, i: nat, pos: nat, c: Call)
    requires start <= end <= i <= i + c.take <= |a| && c.skip == 0
    requires c.stop != Some(EndOfVector) && c.stop != Some(Marker)
    ensures ViewOf(a, start, end, i + c.take, c.pos) == Advance(ViewOf(a, start, end, i, pos), c)
    ensures start == end ==>
      ViewOf(a, i + c.take, i + c.take, i + c.take, c.pos) == Advance(ViewOf(a, start, end, i, pos), c)
  {
    var v := ViewOf(a, start, end, i, pos);
    assert v.rest[0..c.take] == a[i..i + c.take];
    assert v.skipped + v.rest[..0] == v.skipped;
  }

  lemma TakeOne(a: seq<string>, start: nat, end: nat, i: nat)
    requires start <= end <= i < |a|
    ensures var v := ViewOf(a, start, end, i, 0);
      ViewOf(a, start, end, i + 1, 0) == View(v.taken + v.rest[..1], v.skipped, v.rest[1..], 0) &&
      (start == end ==> ViewOf(a, i + 1, i + 1, i + 1, 0) == View(v.taken + v.rest[..1], v.skipped, v.rest[1..], 0))
  {
  }

  lemma PlaceOnly(a: seq<string>, start: nat, end: nat, i: nat)
    requires start <= end <= i <= |a|
    ensures ViewOf(a, start, end, i, 1) == ViewOf(a, start, end, i, 0).(pos := 1)
  {
  }

  // The operands become part of what is left.
  lemma DropBlock(a: seq<string>, start: nat, i: nat, pos: nat)
    requires start <= i <= |a|
    ensures var v := ViewOf(a, start, i, i, pos);
      ViewOf(a, start, start, start, pos) == View(v.taken, [], v.skipped + v.rest, pos)
  {
  }

  // The block put behind the options taken since, as a block or for good.
  lemma Regrouped(a: seq<string>, v: View)
    requires a == v.taken + v.skipped + v.rest
    ensures ViewOf(a, |v.taken|, |v.taken| + |v.skipped|, |v.taken| + |v.skipped|, v.pos) == v
    ensures ViewOf(a, |v.taken|, |v.taken|, |v.taken|, v.pos) == View(v.taken, [], v.skipped + v.rest, v.pos)
  {
  }

  lemma AdvanceToEnd(v: View, n: nat, why: Stop)
    requires n <= |v.rest| && (why == EndOfVector || why == Marker)
    ensures Advance(v, Finish(n, why)) == View(v.taken + v.rest[..n], [], v.skipped + v.rest[n..], 0)
  {
    assert v.skipped + v.rest[..0] + v.rest[n..] == v.skipped + v.rest[n..];
  }

  // What a call is to make of it.  At the end of the vector or at the marker
  // the skipped operands are put back in front of what is left.
  function Advance(v: View, c: Call): View
    requires c.skip + c.take <= |v.rest|
  {
    var taken := v.taken + v.rest[c.skip..c.skip + c.take];
    var skipped := v.skipped + v.rest[..c.skip];
    var rest := v.rest[c.skip + c.take..];
    if c.stop == Some(EndOfVector) || c.stop == Some(Marker) then View(taken, [], skipped + rest, c.pos)
    else View(taken, skipped, rest, c.pos)
  }

  function SkipOne(v: View): View
    requires |v.rest| > 0
  {
    View(v.taken, v.skipped + v.rest[..1], v.rest[1..], 0)
  }

  // A call that starts one operand further on.
  function Later(c: Call): Call {
    c.(skip := c.skip + 1)
  }

  lemma AdvanceLater(v: View, c: Call)
    requires |v.rest| > 0 && c.skip + c.take <= |v.rest| - 1
    ensures Advance(v, Later(c)) == Advance(SkipOne(v), c)
  {
    var rest := v.rest;
    assert rest[1..][c.skip..c.skip + c.take] == rest[c.skip + 1..c.skip + 1 + c.take];
    assert rest[1..][c.skip + c.take..] == rest[c.skip + 1 + c.take..];
    assert v.skipped + rest[..c.skip + 1] == v.skipped + rest[..1] + rest[1..][..c.skip];
  }

  function Settle(v: View, last: Call, taken: seq<string>, skipped: seq<string>, unscanned: seq<string>): View {
    if last.stop == Some(EndOfVector) || last.stop == Some(Marker) then
      View(v.taken + taken, [], (v.skipped + skipped) + unscanned, last.pos)
    else
      View(v.taken + taken, v.skipped + skipped, unscanned, last.pos)
  }

  // A whole scan from v.
  ghost function WholeScan(cfg: Config, v: View): View
    requires cfg.Valid() && Scanning(v.rest, v.pos)
  {
    Settle(v, Last(Run(cfg, v.rest, v.pos)), Taken(cfg, v.rest, v.pos), Skipped(cfg, v.rest, v.pos),
           Unscanned(cfg, v.rest, v.pos))
  }

  lemma OneCall(cfg: Config, v: View)
    requires cfg.Valid() && Scanning(v.rest, v.pos)
    ensures var c := Next(cfg, v.rest, v.pos);
      c.skip + c.take <= |v.rest| &&
      var w := Advance(v, c);
      if c.stop.None? then
        Scanning(w.rest, w.pos) && WholeScan(cfg, w) == WholeScan(cfg, v) &&
        (|w.rest| < |v.rest| || (w.rest == v.rest && CharsLeft(w.rest, w.pos) < CharsLeft(v.rest, v.pos))) &&
        Answers(Run(cfg, v.rest, v.pos)) == [c.answer] + Answers(Run(cfg, w.rest, w.pos))
      else
        WholeScan(cfg, v) == w && Answers(Run(cfg, v.rest, v.pos)) == [c.answer]
  {
    hide Next, Run, Taken, Skipped, Unscanned, WholeScan, CharsLeft;
    CallProgress(cfg, v.rest, v.pos);
    var c := Next(cfg, v.rest, v.pos);
    if c.stop.None? {
      Unroll(cfg, v.rest, v.pos);
      RunTail(Run(cfg, v.rest, v.pos), c, Run(cfg, OptionRuns.After(v.rest, c), c.pos));
      WholeScanStep(cfg, v);
    } else {
      UnrollLast(cfg, v.rest, v.pos);
      WholeScanEnd(cfg, v);
    }
  }

  lemma WholeScanStep(cfg: Config, v: View)
    requires cfg.Valid() && Scanning(v.rest, v.pos) && Next(cfg, v.rest, v.pos).stop.None?
    ensures var c := Next(cfg, v.rest, v.pos);
      c.skip + c.take <= |v.rest| &&
      var w := Advance(v, c);
      Scanning(w.rest, w.pos) && WholeScan(cfg, w) == WholeScan(cfg, v)
  {
    hide Next, Run, Taken, Skipped, Unscanned, Settle;
    Unroll(cfg, v.rest, v.pos);
    var c := Next(cfg, v.rest, v.pos);
    var r := OptionRuns.After(v.rest, c);
    RunTail(Run(cfg, v.rest, v.pos), c, Run(cfg, r, c.pos));
    SettleStep(v, Advance(v, c), Last(Run(cfg, r, c.pos)), v.rest[c.skip..c.skip + c.take], v.rest[..c.skip],
               Taken(cfg, r, c.pos), Skipped(cfg, r, c.pos), Unscanned(cfg, r, c.pos));
  }

  lemma SettleStep(v: View, w: View, last: Call, y: seq<string>, x: seq<string>,
                   t: seq<string>, s: seq<string>, u: seq<string>)
    requires w.taken == v.taken + y && w.skipped == v.skipped + x
    ensures Settle(w, last, t, s, u) == Settle(v, last, y + t, x + s, u)
  {
    assert (v.taken + y) + t == v.taken + (y + t);
    assert (v.skipped + x) + s == v.skipped + (x + s);
  }

  lemma WholeScanEnd(cfg: Config, v: View)
    requires cfg.Valid() && Scanning(v.rest, v.pos) && Next(cfg, v.rest, v.pos).stop.Some?
    ensures var c := Next(cfg, v.rest, v.pos);
      c.skip + c.take <= |v.rest| && WholeScan(cfg, v) == Advance(v, c)
  {
    hide Next, Run, Taken, Skipped, Unscanned;
    UnrollLast(cfg, v.rest, v.pos);
  }

  // The vector after a scan that ended at the end of the vector or at "--".
  lemma CleanScan(cfg: Config, name: string, rest: seq<string>)
    requires cfg.Valid() && Last(Run(cfg, rest, 0)).stop in {Some(EndOfVector), Some(Marker)}
    ensures var w := WholeScan(cfg, View([name], [], rest, 0));
      w.skipped == [] && w.taken == [name] + Taken(cfg, rest, 0) && w.taken + w.rest == [name] + Permuted(cfg, rest)
  {
    hide Next, Run, Taken, Skipped, Unscanned;
    var t, s, u := Taken(cfg, rest, 0), Skipped(cfg, rest, 0), Unscanned(cfg, rest, 0);
    assert ([name] + t) + (([] + s) + u) == [name] + (t + s + u);
  }

  lemma NextInside(cfg: Config, rest: seq<string>, pos: nat)
    requires cfg.Valid() && Scanning(rest, pos) && pos > 0
    ensures Next(cfg, rest, pos) == ReadOption(cfg, rest, pos)
  {
  }

  // What one turn of a scanning loop finds.
  datatype Outcome = Passed | Stopped(r: int) | Found

  // A call from v and a call from w give the same answer and lead to the same
  // view.
  ghost predicate SameCall(cfg: Config, v: View, w: View)
    requires cfg.Valid()
  {
    var c, d := Next(cfg, v.rest, 0), Next(cfg, w.rest, 0);
    c.skip + c.take <= |v.rest| && d.skip + d.take <= |w.rest| &&
    c.answer == d.answer && c.stop == d.stop && c.missing == d.missing &&
    c.skip + |v.skipped| == d.skip + |w.skipped| && Advance(v, c) == Advance(w, d)
  }

  lemma SameCallSkip(cfg: Config, v: View, w: View)
    requires cfg.Valid() && SameCall(cfg, v, w) && cfg.Operands() == Permute
    requires |w.rest| > 0 && IsOperand(w.rest[0])
    ensures SameCall(cfg, v, SkipOne(w))
  {
    hide Next, Advance, IsOperand, Config.Operands, Config.Valid;
    NextSkipsOne(cfg, w.rest);
    var d := Next(cfg, w.rest[1..], 0);
    CallProgress(cfg, w.rest[1..], 0);
    AdvanceLater(w, d);
  }

  lemma NextSkipsOne(cfg: Config, rest: seq<string>)
    requires |rest| > 0 && IsOperand(rest[0]) && cfg.Operands() == Permute
    ensures Next(cfg, rest, 0) == Later(Next(cfg, rest[1..], 0))
  {
  }

  lemma FoundOption(cfg: Config, v: View, w: View)
    requires cfg.Valid() && SameCall(cfg, v, w)
    requires |w.rest| > 0 && IsOptionArgument(w.rest[0])
    ensures var c, d := Next(cfg, v.rest, 0), ReadOption(cfg, w.rest, 1);
      d.skip + d.take <= |w.rest| && d.answer == c.answer && d.stop == c.stop && d.missing == c.missing &&
      c.skip + |v.skipped| == |w.skipped| &&
      Advance(w.(pos := 1), d) == Advance(v, c)
  {
    hide Next, ReadOption;
    NextUnfolds(cfg, w.rest);
  }

  lemma NextUnfolds(cfg: Config, rest: seq<string>)
    requires cfg.Valid()
    ensures var n := Next(cfg, rest, 0);
      if |rest| == 0 then n == Stops(cfg, 0, EndOfVector)
      else if IsOperand(rest[0]) then
        (cfg.Operands().ReturnInOrder? ==> n == Read(1, 0, IN_ORDER, Some(rest[0]), None)) &&
        (cfg.Operands().StopAtFirst? ==> n == Stops(cfg, 0, AtOperand)) &&
        (cfg.Operands().Permute? ==> n == Later(Next(cfg, rest[1..], 0)))
      else if IsMarker(rest[0]) then n == Stops(cfg, 1, Marker)
      else n == ReadOption(cfg, rest, 1) && n.skip == 0
  {
    hide ReadOption;
    if |rest| > 0 && IsOptionArgument(rest[0]) {
      ReadOptionShape(cfg, rest, 1);
    }
  }
}
