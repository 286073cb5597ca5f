// Whole scans: the calls a program makes until getopt_long returns -1, which
// arguments they take and which they skip, and what a second scan over the
// permuted vector sees.
module OptionRuns {
  import opened OptionTable
  import opened LongLookup
  import opened OptionScanner

  // ------------------------------------------------------------ termination

  // Characters left in the argument being read.
  function CharsLeft(rest: seq<string>, pos: nat): nat
    requires Scanning(rest, pos)
  {
    if |rest| == 0 then 0 else if pos == 0 then |rest[0]| + 1 else |rest[0]| - pos
  }

  function After(rest: seq<string>, c: Call): (r: seq<string>)
    requires c.skip + c.take <= |rest|
  {
    rest[c.skip + c.take..]
  }

  // Each call that does not end the scan lowers (arguments left, characters
  // left), and leaves a state from which the next call can go on.
  lemma CallProgress(cfg: Config, rest: seq<string>, pos: nat)
    requires cfg.Valid() && Scanning(rest, pos)
    ensures var c := Next(cfg, rest, pos);
      c.skip + c.take <= |rest| && Scanning(After(rest, c), c.pos) &&
      (c.stop.None? ==>
        |After(rest, c)| < |rest| ||
        (After(rest, c) == rest && CharsLeft(rest, c.pos) < CharsLeft(rest, pos)))
  {
    hide Next;
    NextShape(cfg, rest, pos);
  }

  // All calls of a scan, the one that returns -1 included.
  function Run(cfg: Config, rest: seq<string>, pos: nat): (calls: seq<Call>)
    requires cfg.Valid() && Scanning(rest, pos)
    ensures |calls| > 0
    decreases |rest|, CharsLeft(rest, pos)
  {
    CallProgress(cfg, rest, pos);
    var c := Next(cfg, rest, pos);
    if c.stop.Some? then [c] else [c] + Run(cfg, After(rest, c), c.pos)
  }

  function Last(calls: seq<Call>): Call
    requires |calls| > 0
  {
    calls[|calls| - 1]
  }

  lemma {:induction false} RunStops(cfg: Config, rest: seq<string>, pos: nat)
    requires cfg.Valid() && Scanning(rest, pos)
    ensures var t := Run(cfg, rest, pos);
      Last(t).stop.Some? && Last(t).answer.ret == DONE && !Last(t).missing &&
      forall i :: 0 <= i < |t| - 1 ==> t[i].stop.None? && t[i].answer.ret != DONE
    decreases |rest|, CharsLeft(rest, pos)
  {
    hide Next;
    NextShape(cfg, rest, pos);
    CallProgress(cfg, rest, pos);
    var c := Next(cfg, rest, pos);
    if c.stop.None? {
      RunStops(cfg, After(rest, c), c.pos);
    }
  }

  // ------------------------------------------------------- taken or skipped

  // The arguments a scan takes as options or option arguments (the marker
  // "--" included), in the order it meets them.
  function Taken(cfg: Config, rest: seq<string>, pos: nat): seq<string>
    requires cfg.Valid() && Scanning(rest, pos)
    decreases |rest|, CharsLeft(rest, pos)
  {
    CallProgress(cfg, rest, pos);
    var c := Next(cfg, rest, pos);
    rest[c.skip..c.skip + c.take] + if c.stop.Some? then [] else Taken(cfg, After(rest, c), c.pos)
  }

  // The operands it skips.
  function Skipped(cfg: Config, rest: seq<string>, pos: nat): seq<string>
    requires cfg.Valid() && Scanning(rest, pos)
    decreases |rest|, CharsLeft(rest, pos)
  {
    CallProgress(cfg, rest, pos);
    var c := Next(cfg, rest, pos);
    rest[..c.skip] + if c.stop.Some? then [] else Skipped(cfg, After(rest, c), c.pos)
  }

  // What it leaves unread.
  function Unscanned(cfg: Config, rest: seq<string>, pos: nat): seq<string>
    requires cfg.Valid() && Scanning(rest, pos)
    decreases |rest|, CharsLeft(rest, pos)
  {
    CallProgress(cfg, rest, pos);
    var c := Next(cfg, rest, pos);
    if c.stop.Some? then After(rest, c) else Unscanned(cfg, After(rest, c), c.pos)
  }

  // A scan, unrolled by one call.
  lemma Unroll(cfg: Config, rest: seq<string>, pos: nat)
    requires cfg.Valid() && Scanning(rest, pos) && Next(cfg, rest, pos).stop.None?
    ensures var c := Next(cfg, rest, pos);
      c.skip + c.take <= |rest| && Scanning(After(rest, c), c.pos) &&
      Run(cfg, rest, pos) == [c] + Run(cfg, After(rest, c), c.pos) &&
      Taken(cfg, rest, pos) == rest[c.skip..c.skip + c.take] + Taken(cfg, After(rest, c), c.pos) &&
      Skipped(cfg, rest, pos) == rest[..c.skip] + Skipped(cfg, After(rest, c), c.pos) &&
      Unscanned(cfg, rest, pos) == Unscanned(cfg, After(rest, c), c.pos)
  {
    hide Next;
    CallProgress(cfg, rest, pos);
  }

  lemma UnrollLast(cfg: Config, rest: seq<string>, pos: nat)
    requires cfg.Valid() && Scanning(rest, pos) && Next(cfg, rest, pos).stop.Some?
    ensures var c := Next(cfg, rest, pos);
      c.skip + c.take <= |rest| && Run(cfg, rest, pos) == [c] &&
      Taken(cfg, rest, pos) == rest[c.skip..c.skip + c.take] &&
      Skipped(cfg, rest, pos) == rest[..c.skip] && Unscanned(cfg, rest, pos) == After(rest, c)
  {
    hide Next;
    CallProgress(cfg, rest, pos);
    var c := Next(cfg, rest, pos);
    assert rest[c.skip..c.skip + c.take] + [] == rest[c.skip..c.skip + c.take];
    assert rest[..c.skip] + [] == rest[..c.skip];
  }

  // The vector a whole scan with permutation is meant to leave behind.
  function Permuted(cfg: Config, rest: seq<string>): seq<string>
    requires cfg.Valid()
  {
    Taken(cfg, rest, 0) + Skipped(cfg, rest, 0) + Unscanned(cfg, rest, 0)
  }

  // z is a and b shuffled together, each in its own order.
  ghost predicate Interleaves(z: seq<string>, a: seq<string>, b: seq<string>) {
    if |z| == 0 then |a| == 0 && |b| == 0 else
      (|a| > 0 && a[0] == z[0] && Interleaves(z[1..], a[1..], b)) ||
      (|b| > 0 && b[0] == z[0] && Interleaves(z[1..], a, b[1..]))
  }

  lemma {:induction false} InterleavesSkip(x: seq<string>, z: seq<string>, a: seq<string>, b: seq<string>)
    requires Interleaves(z, a, b)
    ensures Interleaves(x + z, a, x + b)
  {
    if |x| == 0 {
      assert x + z == z && x + b == b;
    } else {
      InterleavesSkip(x[1..], z, a, b);
      assert (x + z)[1..] == x[1..] + z && (x + b)[1..] == x[1..] + b;
    }
  }

  lemma {:induction false} InterleavesTake(x: seq<string>, z: seq<string>, a: seq<string>, b: seq<string>)
    requires Interleaves(z, a, b)
    ensures Interleaves(x + z, x + a, b)
  {
    if |x| == 0 {
      assert x + z == z && x + a == a;
    } else {
      InterleavesTake(x[1..], z, a, b);
      assert (x + z)[1..] == x[1..] + z && (x + a)[1..] == x[1..] + a;
    }
  }

  lemma InterleavesCall(x: seq<string>, y: seq<string>, z: seq<string>, a: seq<string>, b: seq<string>)
    returns (w: seq<string>)
    requires Interleaves(z, a, b)
    ensures w == x + y + z && Interleaves(w, y + a, x + b)
  {
    InterleavesTake(y, z, a, b);
    InterleavesSkip(x, y + z, y + a, b);
    w := x + y + z;
    assert w == x + (y + z);
  }

  lemma InterleavesLast(x: seq<string>, y: seq<string>)
    ensures Interleaves(x + y, y, x)
  {
    assert Interleaves([], [], []);
    var w := InterleavesCall(x, y, [], [], []);
    assert w == x + y && y + [] == y && x + [] == x;
  }

  // The three parts make up the vector, and the first two keep the original
  // order: what a scan leaves is a stable partition of what it read.
  lemma {:induction false} StablePartition(cfg: Config, rest: seq<string>, pos: nat) returns (z: seq<string>)
    requires cfg.Valid() && Scanning(rest, pos)
    ensures rest == z + Unscanned(cfg, rest, pos)
    ensures Interleaves(z, Taken(cfg, rest, pos), Skipped(cfg, rest, pos))
    decreases |rest|, CharsLeft(rest, pos)
  {
    hide Next, Run, Interleaves, Taken, Skipped, Unscanned;
    CallProgress(cfg, rest, pos);
    var c := Next(cfg, rest, pos);
    var x, y := rest[..c.skip], rest[c.skip..c.skip + c.take];
    assert rest == x + y + After(rest, c);
    if c.stop.None? {
      var r := After(rest, c);
      Unroll(cfg, rest, pos);
      var z' := StablePartition(cfg, r, c.pos);
      z := InterleavesCall(x, y, z', Taken(cfg, r, c.pos), Skipped(cfg, r, c.pos));
    } else {
      UnrollLast(cfg, rest, pos);
      InterleavesLast(x, y);
      z := x + y;
    }
  }

  lemma {:induction false} InterleavesMultiset(z: seq<string>, a: seq<string>, b: seq<string>)
    requires Interleaves(z, a, b)
    ensures multiset(z) == multiset(a) + multiset(b)
  {
    if |z| > 0 {
      assert z == [z[0]] + z[1..];
      if |a| > 0 && a[0] == z[0] && Interleaves(z[1..], a[1..], b) {
        InterleavesMultiset(z[1..], a[1..], b);
        assert a == [a[0]] + a[1..];
      } else {
        InterleavesMultiset(z[1..], a, b[1..]);
        assert b == [b[0]] + b[1..];
      }
    }
  }

  // a stands in z at the places f, from left to right.
  ghost predicate Places(z: seq<string>, a: seq<string>, f: seq<nat>) {
    |f| == |a| && (forall i :: 0 <= i < |a| ==> f[i] < |z| && z[f[i]] == a[i]) &&
    forall i, j :: 0 <= i < j < |a| ==> f[i] < f[j]
  }

  ghost predicate Apart(f: seq<nat>, g: seq<nat>) {
    forall i, j :: 0 <= i < |f| && 0 <= j < |g| ==> f[i] != g[j]
  }

  // Shuffled together means: each of the two stands in z in its own order, at
  // places of its own, and together they are all of z.
  lemma {:induction false} InterleavesPlaces(z: seq<string>, a: seq<string>, b: seq<string>)
    returns (f: seq<nat>, g: seq<nat>)
    requires Interleaves(z, a, b)
    ensures |a| + |b| == |z| && Places(z, a, f) && Places(z, b, g) && Apart(f, g)
  {
    hide Places, Apart;
    f, g := [], [];
    if |z| == 0 {
      NoPlaces(z);
    } else if |a| > 0 && a[0] == z[0] && Interleaves(z[1..], a[1..], b) {
      f, g := InterleavesPlaces(z[1..], a[1..], b);
      PlacesMove(z, a, f, b, g);
      f, g := [0] + Raised(f), Raised(g);
    } else {
      f, g := InterleavesPlaces(z[1..], a, b[1..]);
      PlacesMove(z, b, g, a, f);
      f, g := Raised(f), [0] + Raised(g);
    }
  }

  lemma NoPlaces(z: seq<string>)
    ensures Places(z, [], []) && Apart([], [])
  {
  }

  lemma PlacesMove(z: seq<string>, a: seq<string>, f: seq<nat>, b: seq<string>, g: seq<nat>)
    requires |z| > 0 && |a| > 0 && a[0] == z[0] && Places(z[1..], a[1..], f) && Places(z[1..], b, g)
    ensures Places(z, a, [0] + Raised(f)) && Places(z, b, Raised(g))
    ensures Apart(f, g) ==> Apart([0] + Raised(f), Raised(g))
    ensures Apart(g, f) ==> Apart(Raised(g), [0] + Raised(f))
  {
    hide Places;
    PlacesRaise(z, b, g);
    PlacesFront(z, a, f);
  }

  lemma PlacesRaise(z: seq<string>, b: seq<string>, g: seq<nat>)
    requires |z| > 0 && Places(z[1..], b, g)
    ensures Places(z, b, Raised(g))
  {
    forall i | 0 <= i < |b| ensures z[Raised(g)[i]] == b[i] {
      assert z[1..][g[i]] == b[i];
    }
  }

  lemma PlacesFront(z: seq<string>, a: seq<string>, f: seq<nat>)
    requires |z| > 0 && |a| > 0 && a[0] == z[0] && Places(z[1..], a[1..], f)
    ensures Places(z, a, [0] + Raised(f))
  {
    var h := [0] + Raised(f);
    assert |h| == |a| && h[0] == 0 && forall i :: 0 < i < |h| ==> h[i] == f[i - 1] + 1;
    FrontPlaces(z, a, f, h);
  }

  lemma FrontPlaces(z: seq<string>, a: seq<string>, f: seq<nat>, h: seq<nat>)
    requires |z| > 0 && |a| > 0 && a[0] == z[0] && Places(z[1..], a[1..], f)
    requires |h| == |a| && h[0] == 0 && forall i :: 0 < i < |h| ==> h[i] == f[i - 1] + 1
    ensures Places(z, a, h)
  {
    forall i | 0 <= i < |a| ensures h[i] < |z| && z[h[i]] == a[i] {
      if i > 0 {
        assert z[1..][f[i - 1]] == a[1..][i - 1];
      }
    }
    forall i, j | 0 <= i < j < |a| ensures h[i] < h[j] {
      if i > 0 {
        assert f[i - 1] < f[j - 1];
      }
    }
  }

  function Raised(places: seq<nat>): (r: seq<nat>)
    ensures |r| == |places| && forall i :: 0 <= i < |r| ==> r[i] == places[i] + 1
  {
    seq(|places|, i requires 0 <= i < |places| => places[i] + 1)
  }

  lemma PermutedIsPermutation(cfg: Config, rest: seq<string>)
    requires cfg.Valid()
    ensures multiset(Permuted(cfg, rest)) == multiset(rest)
  {
    var z := StablePartition(cfg, rest, 0);
    InterleavesMultiset(z, Taken(cfg, rest, 0), Skipped(cfg, rest, 0));
  }

  // Only operands are skipped, and only when the option string permits it.
  lemma {:induction false} NextSkips(cfg: Config, rest: seq<string>, pos: nat)
    requires cfg.Valid() && Scanning(rest, pos)
    ensures var c := Next(cfg, rest, pos);
      c.skip <= |rest| && (c.skip > 0 ==> cfg.Operands().Permute? && pos == 0) &&
      (forall i :: 0 <= i < c.skip ==> IsOperand(rest[i]))
    decreases rest
  {
    if pos > 0 {
      ReadOptionShape(cfg, rest, pos);
    } else if |rest| > 0 {
      if IsOperand(rest[0]) {
        NextSkips(cfg, rest[1..], 0);
      } else if !IsMarker(rest[0]) {
        ReadOptionShape(cfg, rest, 1);
      }
    }
  }

  lemma {:induction false} SkippedAreOperands(cfg: Config, rest: seq<string>, pos: nat)
    requires cfg.Valid() && Scanning(rest, pos)
    ensures forall x :: x in Skipped(cfg, rest, pos) ==> IsOperand(x)
    ensures Skipped(cfg, rest, pos) != [] ==> cfg.Operands().Permute?
    decreases |rest|, CharsLeft(rest, pos)
  {
    CallProgress(cfg, rest, pos);
    NextSkips(cfg, rest, pos);
    var c := Next(cfg, rest, pos);
    if c.stop.None? {
      SkippedAreOperands(cfg, After(rest, c), c.pos);
    }
  }

  // ------------------------------------------------------------- rescanning

  function Answers(calls: seq<Call>): (a: seq<Answer>)
    ensures |a| == |calls|
    ensures forall i :: 0 <= i < |calls| ==> a[i] == calls[i].answer
  {
    if |calls| == 0 then [] else [calls[0].answer] + Answers(calls[1..])
  }

  ghost predicate NothingMissing(calls: seq<Call>) {
    forall c :: c in calls ==> !c.missing
  }

  // Two vectors that agree as far as an option reads.
  ghost predicate Agree(a: seq<string>, b: seq<string>, n: nat) {
    n <= |a| && n <= |b| && forall i :: 0 <= i < n ==> a[i] == b[i]
  }

  function Reach(c: Call): nat {
    if c.take == 0 then 1 else c.take
  }

  // Reading an option depends on nothing beyond the arguments it takes,
  // unless its argument was missing.
  lemma LongIsLocal(cfg: Config, a: seq<string>, b: seq<string>, text: string, shortToo: bool)
    requires cfg.Valid() && cfg.longOptions.Some? && |a| > 0 && |b| > 0
    requires var r := ReadLong(cfg, a, text, shortToo); r.Some? ==> !r.value.missing && Agree(a, b, r.value.take)
    ensures ReadLong(cfg, a, text, shortToo) == ReadLong(cfg, b, text, shortToo)
  {
    match Find(cfg.longOptions.value, NameOf(text), shortToo, cfg.longOnly)
    case Ambiguous =>
    case NoMatch =>
    case Match(i) =>
      match cfg.longOptions.value[i].hasArg
      case NoArgument =>
      case OptionalArgument =>
      case RequiredArgument =>
  }

  lemma ShortIsLocal(cfg: Config, a: seq<string>, b: seq<string>, pos: nat)
    requires cfg.Valid() && |a| > 0 && pos < |a[0]|
    requires var c := ReadShort(cfg, a, pos); !c.missing && Agree(a, b, Reach(c))
    ensures ReadShort(cfg, a, pos) == ReadShort(cfg, b, pos)
  {
    assert a[0] == b[0];
    var after := a[0][pos + 1..];
    match Classify(cfg, a[0][pos], |after| == 0)
    case Illegal =>
    case Dash =>
    case LongFollows =>
      if |after| > 0 {
        ReadLongShape(cfg, a, after, false);
        LongIsLocal(cfg, a, b, after, false);
      } else {
        ReadLongShape(cfg, a[1..], a[1], false);
        assert a[1] == b[1];
        LongIsLocal(cfg, a[1..], b[1..], a[1], false);
      }
    case Plain =>
    case TakesArgument(_) =>
  }

  lemma BsdIsLocal(cfg: Config, a: seq<string>, b: seq<string>, pos: nat)
    requires cfg.Valid() && |a| > 0 && pos < |a[0]|
    requires var c := ReadBsd(cfg, a, pos); !c.missing && Agree(a, b, Reach(c))
    ensures ReadBsd(cfg, a, pos) == ReadBsd(cfg, b, pos)
  {
    assert a[0] == b[0];
    var text := a[0][pos..];
    if cfg.longOptions.Some? && text[0] == '-' {
      ReadLongShape(cfg, a, text[1..], false);
      LongIsLocal(cfg, a, b, text[1..], false);
    } else if cfg.longOptions.Some? && cfg.longOnly {
      var shortToo := text[0] != ':' && text[0] in cfg.Letters();
      ReadLongShape(cfg, a, text, shortToo);
      LongIsLocal(cfg, a, b, text, shortToo);
      if ReadLong(cfg, a, text, shortToo).None? {
        ShortIsLocal(cfg, a, b, pos);
      }
    } else {
      ShortIsLocal(cfg, a, b, pos);
    }
  }

  lemma MingwLongIsLocal(cfg: Config, a: seq<string>, b: seq<string>, text: string)
    requires cfg.longOptions.Some? && |a| > 0 && |b| > 0
    requires var c := ReadMingwLong(cfg, a, text); !c.missing && Agree(a, b, c.take)
    ensures ReadMingwLong(cfg, a, text) == ReadMingwLong(cfg, b, text)
  {
    match Resolve(cfg.longOptions.value, text, 0, None, None)
    case Unmatched =>
    case Ambiguity(_) =>
    case Resolved(row, value) =>
      match cfg.longOptions.value[row].hasArg
      case NoArgument =>
      case OptionalArgument =>
      case RequiredArgument =>
  }

  lemma MingwShortIsLocal(cfg: Config, a: seq<string>, b: seq<string>, pos: nat)
    requires |a| > 0 && pos < |a[0]|
    requires var c := ReadMingwShort(cfg, a, pos); !c.missing && Agree(a, b, Reach(c))
    ensures ReadMingwShort(cfg, a, pos) == ReadMingwShort(cfg, b, pos)
  {
    hide MingwClassify;
    assert a[0] == b[0];
    match MingwClassify(cfg, a[0][pos])
    case TakesArgument(_) =>
    case Plain =>
    case _ =>
  }

  lemma OptionIsLocal(cfg: Config, a: seq<string>, b: seq<string>, pos: nat)
    requires cfg.Valid() && |a| > 0 && pos < |a[0]|
    requires var c := ReadOption(cfg, a, pos); !c.missing && Agree(a, b, Reach(c))
    ensures ReadOption(cfg, a, pos) == ReadOption(cfg, b, pos)
  {
    hide ReadBsd, ReadMingwLong, ReadMingwShort;
    assert a[0] == b[0];
    if cfg.dialect.Bsd? {
      BsdIsLocal(cfg, a, b, pos);
    } else if cfg.longOptions.Some? && pos == 1 && a[0][1] == '-' {
      ReadMingwLongShape(cfg, a, a[0][2..]);
      MingwLongIsLocal(cfg, a, b, a[0][2..]);
    } else {
      MingwShortIsLocal(cfg, a, b, pos);
    }
  }

  // One call repeated over another vector b: it finds its option at once.
  lemma {:induction false} NextIsLocal(cfg: Config, rest: seq<string>, pos: nat, b: seq<string>)
    requires cfg.Valid() && Scanning(rest, pos)
    requires var c := Next(cfg, rest, pos);
      (c.stop.None? || c.stop == Some(Marker)) && !c.missing &&
      c.skip <= |rest| && Agree(rest[c.skip..], b, Reach(c))
    ensures Scanning(b, pos) && Next(cfg, b, pos) == Next(cfg, rest, pos).(skip := 0)
    decreases rest
  {
    if pos > 0 {
      ReadOptionShape(cfg, rest, pos);
      OptionIsLocal(cfg, rest, b, pos);
    } else if |rest| > 0 {
      if IsOperand(rest[0]) {
        if cfg.Operands().Permute? {
          var n := Next(cfg, rest[1..], 0);
          assert rest[1..][n.skip..] == rest[n.skip + 1..];
          NextIsLocal(cfg, rest[1..], 0, b);
        } else {
          assert rest[0..][0] == b[0];
        }
      } else if !IsMarker(rest[0]) {
        ReadOptionShape(cfg, rest, 1);
        assert rest[0..] == rest;
        OptionIsLocal(cfg, rest, b, 1);
      } else {
        assert rest[0..][0] == b[0];
      }
    }
  }

  lemma OnlyBsdStrayDash(cfg: Config, rest: seq<string>, pos: nat)
    requires cfg.Valid() && |rest| > 0 && pos < |rest[0]|
    ensures ReadBsd(cfg, rest, pos).stop in {None, Some(StrayDash)}
  {
    hide ReadLong, ReadW, ReadShortArgument, Classify;
    var text := rest[0][pos..];
    if cfg.longOptions.Some? {
      ReadLongShape(cfg, rest, text[1..], false);
      ReadLongShape(cfg, rest, text, text[0] != ':' && text[0] in cfg.Letters());
    }
    var after := rest[0][pos + 1..];
    match Classify(cfg, rest[0][pos], |after| == 0)
    case Illegal =>
    case Dash =>
    case LongFollows => ReadWShape(cfg, rest, after);
    case Plain =>
    case TakesArgument(optional) =>
      assert ReadShortArgument(cfg, rest, rest[0][pos], after, optional).stop == None by {
        ArgumentGoesOn(cfg, rest, rest[0][pos], after, optional);
      }
  }

  lemma ArgumentGoesOn(cfg: Config, rest: seq<string>, c: char, after: string, optional: bool)
    requires |rest| > 0
    ensures ReadShortArgument(cfg, rest, c, after, optional).stop == None
  {
  }

  lemma OnlyStrayDash(cfg: Config, rest: seq<string>, pos: nat)
    requires cfg.Valid() && |rest| > 0 && pos < |rest[0]|
    ensures ReadOption(cfg, rest, pos).stop in {None, Some(StrayDash)}
    ensures cfg.dialect.Mingw? ==> ReadOption(cfg, rest, pos).stop == None
  {
    hide ReadBsd, ReadMingw;
    OnlyBsdStrayDash(cfg, rest, pos);
    ReadMingwShape(cfg, rest, pos);
  }

  // A scan ends between arguments; at the end of the vector nothing is taken.
  lemma {:induction false} EndShape(cfg: Config, rest: seq<string>, pos: nat)
    requires cfg.Valid() && Scanning(rest, pos)
    ensures var c := Next(cfg, rest, pos);
      (c.stop == Some(EndOfVector) ==> pos == 0 && c == Stops(cfg, 0, EndOfVector).(skip := |rest|)) &&
      (c.stop == Some(AtOperand) ==> pos == 0) &&
      (c.stop == Some(Marker) ==> pos == 0 && c.skip < |rest| && IsMarker(rest[c.skip]) &&
                                  c == Stops(cfg, 1, Marker).(skip := c.skip))
    decreases rest
  {
    hide ReadOption;
    if pos > 0 {
      OnlyStrayDash(cfg, rest, pos);
    } else if |rest| > 0 {
      if IsOperand(rest[0]) {
        EndShape(cfg, rest[1..], 0);
      } else if !IsMarker(rest[0]) {
        OnlyStrayDash(cfg, rest, 1);
      }
    }
  }

  lemma GoesOn(cfg: Config, rest: seq<string>, pos: nat)
    requires cfg.Valid() && Scanning(rest, pos) && pos > 0
    requires Last(Run(cfg, rest, pos)).stop != Some(StrayDash)
    ensures Next(cfg, rest, pos).stop.None?
  {
    hide Next;
    EndShape(cfg, rest, pos);
    CallProgress(cfg, rest, pos);
    match Next(cfg, rest, pos).stop
    case None =>
    case Some(why) =>
      match why
      case EndOfVector =>
      case Marker =>
      case AtOperand =>
      case StrayDash => UnrollLast(cfg, rest, pos);
  }

  // Inside a cluster, the argument being read is the next one taken.
  lemma {:induction false} HeadIsTaken(cfg: Config, rest: seq<string>, pos: nat)
    requires cfg.Valid() && Scanning(rest, pos) && pos > 0
    requires Last(Run(cfg, rest, pos)).stop != Some(StrayDash)
    ensures |Taken(cfg, rest, pos)| > 0 && Taken(cfg, rest, pos)[0] == rest[0]
    decreases |rest|, CharsLeft(rest, pos)
  {
    hide Next;
    NextShape(cfg, rest, pos);
    NextSkips(cfg, rest, pos);
    GoesOn(cfg, rest, pos);
    Unroll(cfg, rest, pos);
    var c := Next(cfg, rest, pos);
    if c.take == 0 {
      HeadIsTaken(cfg, After(rest, c), c.pos);
    }
  }

  lemma AgreeInFront(rest: seq<string>, c: Call, t: seq<string>, x: seq<string>)
    requires c.skip + c.take <= |rest| && (c.take == 0 ==> |t| > 0 && c.skip < |rest| && t[0] == rest[c.skip])
    ensures Agree(rest[c.skip..], (rest[c.skip..c.skip + c.take] + t) + x, Reach(c))
  {
  }

  lemma TakenNext(cfg: Config, rest: seq<string>, pos: nat)
    requires cfg.Valid() && Scanning(rest, pos)
    requires var c := Next(cfg, rest, pos); c.stop.None? && c.take == 0
    requires Last(Run(cfg, rest, pos)).stop != Some(StrayDash)
    ensures var c := Next(cfg, rest, pos);
      c.skip < |rest| && Scanning(After(rest, c), c.pos) &&
      var t := Taken(cfg, After(rest, c), c.pos);
      |t| > 0 && t[0] == rest[c.skip]
  {
    hide Next, Run, Taken, Skipped, Unscanned;
    Unroll(cfg, rest, pos);
    NextShape(cfg, rest, pos);
    var c := Next(cfg, rest, pos);
    RunTail(Run(cfg, rest, pos), c, Run(cfg, After(rest, c), c.pos));
    HeadIsTaken(cfg, After(rest, c), c.pos);
  }

  // A call over b gives the answer of c, skips nothing, and leaves r.
  ghost predicate Repeats(cfg: Config, b: seq<string>, pos: nat, c: Call, r: seq<string>)
    requires cfg.Valid()
  {
    Scanning(b, pos) && Next(cfg, b, pos) == c.(skip := 0) && c.take <= |b| && After(b, c.(skip := 0)) == r
  }

  // A call repeated where the arguments it takes stand in front.
  lemma CallInFront(cfg: Config, rest: seq<string>, pos: nat, c: Call, y: seq<string>, t: seq<string>, x: seq<string>)
    requires cfg.Valid() && Scanning(rest, pos)
    requires c == Next(cfg, rest, pos) && c.stop.None? && !c.missing && c.skip + c.take <= |rest|
    requires y == rest[c.skip..c.skip + c.take] && (c.take == 0 ==> |t| > 0 && c.skip < |rest| && t[0] == rest[c.skip])
    ensures Repeats(cfg, (y + t) + x, pos, c, t + x)
  {
    hide Next;
    SplitFront(y, t, x);
    AgreeInFront(rest, c, t, x);
    NextIsLocal(cfg, rest, pos, (y + t) + x);
  }

  // A call that found its argument, repeated when the taken arguments stand
  // in front of x: it gives the same answer, skips nothing, and leaves the
  // same situation.
  lemma ReplayStep(cfg: Config, rest: seq<string>, pos: nat, x: seq<string>)
    requires cfg.Valid() && Scanning(rest, pos)
    requires var c := Next(cfg, rest, pos); c.stop.None? && !c.missing
    requires Last(Run(cfg, rest, pos)).stop != Some(StrayDash)
    ensures var c := Next(cfg, rest, pos);
      c.skip + c.take <= |rest| && Scanning(After(rest, c), c.pos) &&
      Repeats(cfg, Taken(cfg, rest, pos) + x, pos, c, Taken(cfg, After(rest, c), c.pos) + x)
  {
    hide Next, Run, Taken, Skipped, Unscanned, Repeats, CharsLeft, After;
    Unroll(cfg, rest, pos);
    var c := Next(cfg, rest, pos);
    if c.take == 0 {
      TakenNext(cfg, rest, pos);
    }
    CallInFront(cfg, rest, pos, c, rest[c.skip..c.skip + c.take], Taken(cfg, After(rest, c), c.pos), x);
  }

  ghost predicate AllOperands(x: seq<string>) {
    forall y :: y in x ==> IsOperand(y)
  }

  // Where a scan of skipped operands alone ends.
  lemma {:induction false} NextOnOperands(cfg: Config, x: seq<string>)
    requires cfg.Valid() && AllOperands(x) && (x == [] || cfg.Operands().Permute?)
    ensures Next(cfg, x, 0) == Stops(cfg, 0, EndOfVector).(skip := |x|)
  {
    if |x| > 0 {
      NextOnOperands(cfg, x[1..]);
    }
  }

  // What ended a scan without an option lacking its argument.
  ghost predicate CleanEnd(calls: seq<Call>) {
    |calls| > 0 && NothingMissing(calls) && Last(calls).stop in {Some(EndOfVector), Some(Marker)}
  }

  // What may follow the taken arguments in the second scan.
  ghost predicate Trails(cfg: Config, calls: seq<Call>, x: seq<string>)
    requires |calls| > 0
  {
    Last(calls).stop == Some(EndOfVector) ==> AllOperands(x) && (x == [] || cfg.Operands().Permute?)
  }

  // A scan of the taken arguments followed by x gives the same answers, takes
  // the same arguments and leaves x behind.
  ghost predicate Replays(cfg: Config, rest: seq<string>, pos: nat, x: seq<string>)
    requires cfg.Valid() && Scanning(rest, pos)
  {
    var b := Taken(cfg, rest, pos) + x;
    Scanning(b, pos) && Answers(Run(cfg, b, pos)) == Answers(Run(cfg, rest, pos)) &&
    Last(Run(cfg, b, pos)).stop == Last(Run(cfg, rest, pos)).stop &&
    Taken(cfg, b, pos) == Taken(cfg, rest, pos) &&
    Skipped(cfg, b, pos) + Unscanned(cfg, b, pos) == x
  }

  lemma {:induction false} Replay(cfg: Config, rest: seq<string>, pos: nat, x: seq<string>)
    requires cfg.Valid() && Scanning(rest, pos) && CleanEnd(Run(cfg, rest, pos))
    requires Trails(cfg, Run(cfg, rest, pos), x)
    ensures Replays(cfg, rest, pos, x)
    decreases |rest|, CharsLeft(rest, pos)
  {
    hide Next, Taken, Skipped, Unscanned;
    CallProgress(cfg, rest, pos);
    var c := Next(cfg, rest, pos);
    if c.stop.None? {
      Unroll(cfg, rest, pos);
      RunTail(Run(cfg, rest, pos), c, Run(cfg, After(rest, c), c.pos));
      assert Run(cfg, rest, pos)[0] == c;
      Replay(cfg, After(rest, c), c.pos, x);
      ReplayRest(cfg, rest, pos, x);
    } else {
      ReplayEnd(cfg, rest, pos, x);
    }
  }

  lemma RunTail(t: seq<Call>, c: Call, t': seq<Call>)
    requires t == [c] + t' && |t'| > 0
    ensures Last(t) == Last(t') && (NothingMissing(t) ==> NothingMissing(t') && !c.missing)
    ensures Answers(t) == [c.answer] + Answers(t')
  {
    assert t[1..] == t';
    assert t[0] == c;
    forall d | d in t' ensures d in t {}
  }

  lemma SplitFront(y: seq<string>, t: seq<string>, x: seq<string>)
    ensures ((y + t) + x)[0..|y|] == y && ((y + t) + x)[|y|..] == t + x
  {
  }

  lemma ReplayRest(cfg: Config, rest: seq<string>, pos: nat, x: seq<string>)
    requires cfg.Valid() && Scanning(rest, pos)
    requires var c := Next(cfg, rest, pos);
      c.stop.None? && !c.missing && c.skip + c.take <= |rest| &&
      Scanning(After(rest, c), c.pos) && Replays(cfg, After(rest, c), c.pos, x)
    requires Last(Run(cfg, rest, pos)).stop != Some(StrayDash)
    ensures Replays(cfg, rest, pos, x)
  {
    hide Next, Run, Taken, Skipped, Unscanned, Answers;
    ReplayStep(cfg, rest, pos, x);
    var c := Next(cfg, rest, pos);
    var b := Taken(cfg, rest, pos) + x;
    var b' := Taken(cfg, After(rest, c), c.pos) + x;
    Unroll(cfg, rest, pos);
    Unroll(cfg, b, pos);
    RunTail(Run(cfg, rest, pos), c, Run(cfg, After(rest, c), c.pos));
    RunTail(Run(cfg, b, pos), c.(skip := 0), Run(cfg, b', c.pos));
    var y := rest[c.skip..c.skip + c.take];
    SplitFront(y, Taken(cfg, After(rest, c), c.pos), x);
    assert b[0..|y|] == y;
    assert Skipped(cfg, b, pos) == Skipped(cfg, b', c.pos) by {
      assert b[..0] + Skipped(cfg, b', c.pos) == Skipped(cfg, b', c.pos);
    }
  }

  lemma ReplayEnd(cfg: Config, rest: seq<string>, pos: nat, x: seq<string>)
    requires cfg.Valid() && Scanning(rest, pos) && CleanEnd(Run(cfg, rest, pos))
    requires Trails(cfg, Run(cfg, rest, pos), x) && Next(cfg, rest, pos).stop.Some?
    ensures Replays(cfg, rest, pos, x)
  {
    hide Next, Run, Taken, Skipped, Unscanned;
    EndShape(cfg, rest, pos);
    UnrollLast(cfg, rest, pos);
    var c := Next(cfg, rest, pos);
    var b := Taken(cfg, rest, pos) + x;
    if c.stop == Some(Marker) {
      assert rest[c.skip..][0] == b[0];
      NextIsLocal(cfg, rest, pos, b);
      UnrollLast(cfg, b, pos);
      assert b[0..1] == Taken(cfg, rest, pos) && b[..0] + b[1..] == x;
    } else {
      assert Taken(cfg, rest, pos) == [] && b == x;
      NextOnOperands(cfg, x);
      UnrollLast(cfg, b, pos);
      assert x[..|x|] + x[|x|..] == x;
    }
  }

  // Scanning the permuted vector again gives the same answers and moves
  // nothing.
  lemma Rescan(cfg: Config, rest: seq<string>)
    requires cfg.Valid() && CleanEnd(Run(cfg, rest, 0))
    ensures var b := Permuted(cfg, rest);
      Answers(Run(cfg, b, 0)) == Answers(Run(cfg, rest, 0)) && Permuted(cfg, b) == b &&
      |Taken(cfg, b, 0)| == |Taken(cfg, rest, 0)| && Last(Run(cfg, b, 0)).stop == Last(Run(cfg, rest, 0)).stop
  {
    hide Next, Run, Taken, Skipped, Unscanned;
    var x := Skipped(cfg, rest, 0) + Unscanned(cfg, rest, 0);
    SkippedAreOperands(cfg, rest, 0);
    EndOfRun(cfg, rest, 0);
    Replay(cfg, rest, 0, x);
    var b := Permuted(cfg, rest);
    assert b == Taken(cfg, rest, 0) + x;
    assert Permuted(cfg, b) == Taken(cfg, b, 0) + (Skipped(cfg, b, 0) + Unscanned(cfg, b, 0));
  }

  lemma {:induction false} EndOfRun(cfg: Config, rest: seq<string>, pos: nat)
    requires cfg.Valid() && Scanning(rest, pos)
    ensures Last(Run(cfg, rest, pos)).stop == Some(EndOfVector) ==> Unscanned(cfg, rest, pos) == []
    decreases |rest|, CharsLeft(rest, pos)
  {
    hide Next;
    CallProgress(cfg, rest, pos);
    EndShape(cfg, rest, pos);
    var c := Next(cfg, rest, pos);
    if c.stop.None? {
      EndOfRun(cfg, After(rest, c), c.pos);
    }
  }

  // The answer of an option that lacked its argument differs from the one it
  // gives with operand as its argument: with -W as a prefix of long options,
  // unless a row returns 'W'; in the second engine, whose missing argument is
  // "", unless the operand is empty and the letter is the error value itself.
  predicate TellsApart(cfg: Config, operand: string) {
    match cfg.dialect
    case Bsd => Classify(cfg, 'W', true).LongFollows? ==> NoRowReturns(cfg, 'W' as int)
    case Mingw => operand != "" || !MingwClassify(cfg, cfg.BadArg() as char).TakesArgument?
  }

  predicate NoRowReturns(cfg: Config, val: int) {
    cfg.longOptions.Some? ==>
      forall i :: 0 <= i < |cfg.longOptions.value| ==> ValueOrZero(cfg.longOptions.value[i]) != val
  }

  lemma MissingLongDiffers(cfg: Config, a: seq<string>, text: string, shortToo: bool, x: seq<string>)
    requires cfg.Valid() && cfg.longOptions.Some? && |a| > 0 && |x| > 0
    requires ReadLong(cfg, a, text, shortToo).Some? && ReadLong(cfg, a, text, shortToo).value.missing
    ensures var r := ReadLong(cfg, a + x, text, shortToo);
      |a| == 1 && r.Some? && r.value.answer != ReadLong(cfg, a, text, shortToo).value.answer
  {
    match Find(cfg.longOptions.value, NameOf(text), shortToo, cfg.longOnly)
    case Ambiguous =>
    case NoMatch =>
    case Match(i) =>
      assert |a| == 1 && (a + x)[1] == x[0];
  }

  lemma LongIsNoW(cfg: Config, rest: seq<string>, text: string)
    requires cfg.longOptions.Some? && NoRowReturns(cfg, 'W' as int)
    ensures var r := ReadLong(cfg, rest, text, false); r.Some? && r.value.answer.optopt != Some('W' as int)
  {
    match Find(cfg.longOptions.value, NameOf(text), false, cfg.longOnly)
    case Ambiguous =>
    case NoMatch =>
    case Match(i) =>
      match cfg.longOptions.value[i].hasArg
      case NoArgument =>
      case OptionalArgument =>
      case RequiredArgument =>
  }

  lemma MissingWDiffers(cfg: Config, a: seq<string>, after: string, x: seq<string>)
    requires cfg.Valid() && cfg.longOptions.Some? && NoRowReturns(cfg, 'W' as int) && |a| > 0 && |x| > 0
    requires ReadW(cfg, a, after).missing
    ensures ReadW(cfg, a + x, after).answer != ReadW(cfg, a, after).answer
  {
    hide ReadLong;
    if |after| > 0 {
      ReadLongShape(cfg, a, after, false);
      MissingLongDiffers(cfg, a, after, false, x);
    } else if |a| == 1 {
      LongIsNoW(cfg, (a + x)[1..], (a + x)[1]);
    } else {
      ReadLongShape(cfg, a[1..], a[1], false);
      MissingLongDiffers(cfg, a[1..], a[1], false, x);
      assert (a + x)[1..] == a[1..] + x && (a + x)[1] == a[1];
    }
  }

  lemma MissingShortDiffers(cfg: Config, a: seq<string>, pos: nat, x: seq<string>)
    requires cfg.IsBsd() && |a| > 0 && pos < |a[0]| && |x| > 0 && TellsApart(cfg, x[0])
    requires ReadShort(cfg, a, pos).missing
    ensures ReadShort(cfg, a + x, pos).answer != ReadShort(cfg, a, pos).answer
  {
    hide ReadW;
    var after := a[0][pos + 1..];
    assert (a + x)[0] == a[0];
    match Classify(cfg, a[0][pos], |after| == 0)
    case Illegal =>
    case Dash =>
    case LongFollows =>
      assert a[0][pos] == 'W' && Classify(cfg, 'W', true).LongFollows?;
      MissingWDiffers(cfg, a, after, x);
    case Plain =>
    case TakesArgument(_) =>
      assert |a| == 1 && (a + x)[1] == x[0];
  }

  lemma MissingBsdDiffers(cfg: Config, a: seq<string>, pos: nat, x: seq<string>)
    requires cfg.IsBsd() && |a| > 0 && pos < |a[0]| && |x| > 0 && TellsApart(cfg, x[0])
    requires ReadBsd(cfg, a, pos).missing
    ensures ReadBsd(cfg, a + x, pos).answer != ReadBsd(cfg, a, pos).answer
  {
    hide ReadLong, ReadShort, TellsApart;
    var text := a[0][pos..];
    var shortToo := text[0] != ':' && text[0] in cfg.Letters();
    assert (a + x)[0] == a[0];
    if cfg.longOptions.Some? && text[0] == '-' {
      ReadLongShape(cfg, a, text[1..], false);
      MissingLongDiffers(cfg, a, text[1..], false, x);
    } else if cfg.longOptions.Some? && cfg.longOnly && ReadLong(cfg, a, text, shortToo).Some? {
      MissingLongDiffers(cfg, a, text, shortToo, x);
    } else {
      if cfg.longOptions.Some? && cfg.longOnly {
        LongIsLocal(cfg, a, a + x, text, shortToo);
      }
      MissingShortDiffers(cfg, a, pos, x);
    }
  }

  lemma MissingMingwDiffers(cfg: Config, a: seq<string>, pos: nat, x: seq<string>)
    requires cfg.IsMingw() && |a| > 0 && pos < |a[0]| && |x| > 0 && TellsApart(cfg, x[0])
    requires ReadMingw(cfg, a, pos).missing
    ensures ReadMingw(cfg, a + x, pos).answer != ReadMingw(cfg, a, pos).answer
  {
    hide MingwClassify, Resolve;
    assert (a + x)[0] == a[0];
    if cfg.longOptions.Some? && pos == 1 && a[0][1] == '-' {
      match Resolve(cfg.longOptions.value, a[0][2..], 0, None, None)
      case Unmatched =>
      case Ambiguity(_) =>
      case Resolved(row, value) =>
        assert |a| == 1 && (a + x)[1] == x[0];
    } else {
      match MingwClassify(cfg, a[0][pos])
      case TakesArgument(_) =>
        assert |a| == 1 && (a + x)[1] == x[0];
      case Plain =>
      case _ =>
    }
  }

  lemma MissingOptionDiffers(cfg: Config, a: seq<string>, pos: nat, x: seq<string>)
    requires cfg.Valid() && |a| > 0 && pos < |a[0]| && |x| > 0 && TellsApart(cfg, x[0])
    requires ReadOption(cfg, a, pos).missing
    ensures ReadOption(cfg, a + x, pos).answer != ReadOption(cfg, a, pos).answer
  {
    hide ReadBsd, ReadMingw, TellsApart;
    assert (a + x)[0] == a[0];
    if cfg.dialect.Bsd? {
      MissingBsdDiffers(cfg, a, pos, x);
    } else {
      MissingMingwDiffers(cfg, a, pos, x);
    }
  }

  // A call whose option lacked its argument answers differently when x follows.
  lemma {:induction false} MissingCallDiffers(cfg: Config, rest: seq<string>, pos: nat, x: seq<string>)
    requires cfg.Valid() && Scanning(rest, pos) && |x| > 0 && TellsApart(cfg, x[0])
    requires Next(cfg, rest, pos).missing
    ensures Next(cfg, rest, pos).skip < |rest|
    ensures var c := Next(cfg, rest, pos);
      var b := rest[c.skip..] + x;
      Scanning(b, pos) && Next(cfg, b, pos).answer != c.answer
    decreases rest
  {
    hide ReadOption, TellsApart;
    NextShape(cfg, rest, pos);
    if pos > 0 {
      ReadOptionShape(cfg, rest, pos);
      MissingOptionDiffers(cfg, rest, pos, x);
      assert rest[0..] == rest;
    } else if |rest| > 0 {
      if IsOperand(rest[0]) {
        var n := Next(cfg, rest[1..], 0);
        MissingCallDiffers(cfg, rest[1..], 0, x);
        assert rest[1..][n.skip..] == rest[n.skip + 1..];
      } else if !IsMarker(rest[0]) {
        ReadOptionShape(cfg, rest, 1);
        MissingOptionDiffers(cfg, rest, 1, x);
        assert rest[0..] == rest;
      }
    }
  }

  lemma MissingAnswer(cfg: Config, rest: seq<string>, pos: nat)
    requires cfg.Valid() && Scanning(rest, pos) && Next(cfg, rest, pos).missing
    ensures var c := Next(cfg, rest, pos);
      c.stop.None? && c.skip + c.take == |rest| && Taken(cfg, rest, pos) == rest[c.skip..]
  {
    hide Next, Run, Taken, Skipped, Unscanned;
    NextShape(cfg, rest, pos);
    var c := Next(cfg, rest, pos);
    Unroll(cfg, rest, pos);
    assert After(rest, c) == [];
    NothingLeft(cfg);
    TakenToEnd(rest, c.skip, c.skip + c.take, Taken(cfg, rest, pos));
  }

  lemma NothingLeft(cfg: Config)
    requires cfg.Valid()
    ensures Taken(cfg, [], 0) == []
  {
    hide Next;
    NextOnOperands(cfg, []);
    UnrollLast(cfg, [], 0);
  }

  lemma TakenToEnd(rest: seq<string>, i: nat, n: nat, t: seq<string>)
    requires i <= n == |rest| && t == rest[i..n] + []
    ensures t == rest[i..]
  {
  }

  lemma {:induction false} MissingDiffers(cfg: Config, rest: seq<string>, pos: nat, x: seq<string>)
    requires cfg.Valid() && Scanning(rest, pos) && |x| > 0 && TellsApart(cfg, x[0])
    requires !NothingMissing(Run(cfg, rest, pos)) && Last(Run(cfg, rest, pos)).stop != Some(StrayDash)
    ensures var b := Taken(cfg, rest, pos) + x;
      Scanning(b, pos) && Answers(Run(cfg, b, pos)) != Answers(Run(cfg, rest, pos))
    decreases |rest|, CharsLeft(rest, pos)
  {
    hide Next, Run, Taken, Skipped, Unscanned, Answers, CharsLeft, TellsApart;
    var c := Next(cfg, rest, pos);
    var b := Taken(cfg, rest, pos) + x;
    CallProgress(cfg, rest, pos);
    if c.missing {
      MissingFirst(cfg, rest, pos, x);
    } else if c.stop.None? {
      var r := After(rest, c);
      var b' := Taken(cfg, r, c.pos) + x;
      Unroll(cfg, rest, pos);
      RunTail(Run(cfg, rest, pos), c, Run(cfg, r, c.pos));
      ReplayStep(cfg, rest, pos, x);
      MissingDiffers(cfg, r, c.pos, x);
      Unroll(cfg, b, pos);
      RunTail(Run(cfg, b, pos), c.(skip := 0), Run(cfg, b', c.pos));
      assert ([c.answer] + Answers(Run(cfg, b', c.pos)))[1..] == Answers(Run(cfg, b', c.pos));
      assert ([c.answer] + Answers(Run(cfg, r, c.pos)))[1..] == Answers(Run(cfg, r, c.pos));
    } else {
      UnrollLast(cfg, rest, pos);
      assert false;
    }
  }

  lemma MissingFirst(cfg: Config, rest: seq<string>, pos: nat, x: seq<string>)
    requires cfg.Valid() && Scanning(rest, pos) && |x| > 0 && TellsApart(cfg, x[0])
    requires Next(cfg, rest, pos).missing
    ensures var b := Taken(cfg, rest, pos) + x;
      Scanning(b, pos) && Answers(Run(cfg, b, pos)) != Answers(Run(cfg, rest, pos))
  {
    hide Next, Taken, Skipped, Unscanned, TellsApart;
    MissingAnswer(cfg, rest, pos);
    MissingCallDiffers(cfg, rest, pos, x);
    var b := Taken(cfg, rest, pos) + x;
    assert Run(cfg, b, pos)[0] == Next(cfg, b, pos) && Run(cfg, rest, pos)[0] == Next(cfg, rest, pos);
    assert Answers(Run(cfg, b, pos))[0] != Answers(Run(cfg, rest, pos))[0];
  }

  // When a scan that reached the end of the vector or "--" can be repeated:
  // exactly when no option lacked its argument or no operand was skipped.
  lemma RescanExactly(cfg: Config, rest: seq<string>)
    requires cfg.Valid() && Last(Run(cfg, rest, 0)).stop in {Some(EndOfVector), Some(Marker)}
    requires Skipped(cfg, rest, 0) != [] ==> TellsApart(cfg, Skipped(cfg, rest, 0)[0])
    ensures var b := Permuted(cfg, rest);
      Answers(Run(cfg, b, 0)) == Answers(Run(cfg, rest, 0)) <==>
        NothingMissing(Run(cfg, rest, 0)) || Skipped(cfg, rest, 0) == []
  {
    hide Next, Run, Taken, Skipped, Unscanned, TellsApart;
    var s, u := Skipped(cfg, rest, 0), Unscanned(cfg, rest, 0);
    if NothingMissing(Run(cfg, rest, 0)) {
      Rescan(cfg, rest);
    } else if s == [] {
      var z := StablePartition(cfg, rest, 0);
      InterleavesTakenOnly(z, Taken(cfg, rest, 0));
      assert Permuted(cfg, rest) == rest;
    } else {
      MissingDiffers(cfg, rest, 0, s + u);
      assert Permuted(cfg, rest) == Taken(cfg, rest, 0) + (s + u);
    }
  }

  lemma {:induction false} InterleavesTakenOnly(z: seq<string>, a: seq<string>)
    requires Interleaves(z, a, [])
    ensures z == a
  {
    if |z| > 0 {
      InterleavesTakenOnly(z[1..], a[1..]);
    }
  }

  // An instance where it cannot: with "x -a" the option is last and lacks its
  // argument; in the permuted vector "-a x" it takes the operand.
  lemma MissingBreaksRescan()
    ensures var cfg, rest := Config(Bsd, "a:", None, false, false), ["x", "-a"];
      cfg.Valid() && Answers(Run(cfg, Permuted(cfg, rest), 0)) != Answers(Run(cfg, rest, 0))
  {
    var cfg, rest := Config(Bsd, "a:", None, false, false), ["x", "-a"];
    InstanceCalls(cfg);
    InstanceRun(cfg, rest);
    hide Run, Answers, Skipped, Permuted;
    RescanExactly(cfg, rest);
  }

  lemma InstanceRun(cfg: Config, rest: seq<string>)
    requires cfg.Valid() && |rest| == 2 && Next(cfg, rest, 0) == Fail(1, 0, BAD_CHAR, 'a' as int, true).(skip := 1)
    requires Next(cfg, [], 0) == Finish(0, EndOfVector)
    ensures var t := Run(cfg, rest, 0);
      !NothingMissing(t) && Last(t).stop == Some(EndOfVector) && Skipped(cfg, rest, 0) != []
  {
    hide Next, Taken, Skipped, Unscanned;
    var c := Next(cfg, rest, 0);
    assert After(rest, c) == [];
    Unroll(cfg, rest, 0);
    UnrollLast(cfg, [], 0);
    assert Run(cfg, rest, 0)[0] == c && |rest[..1]| == 1;
  }

  lemma InstanceCalls(cfg: Config)
    requires cfg == Config(Bsd, "a:", None, false, false)
    ensures Next(cfg, ["x", "-a"], 0) == Fail(1, 0, BAD_CHAR, 'a' as int, true).(skip := 1)
    ensures Next(cfg, [], 0) == Finish(0, EndOfVector) && forall operand :: TellsApart(cfg, operand)
  {
    assert cfg.Letters() == "a:" && cfg.Operands() == Permute;
    assert Classify(cfg, 'a', true) == TakesArgument(false) by { assert CharAt("a:", 2) != ':'; }
    var a := ["-a"];
    assert "-a"[2..] == "";
    assert ReadOption(cfg, a, 1) == Fail(1, 0, BAD_CHAR, 'a' as int, true);
    hide ReadOption;
    assert ["x", "-a"][1..] == a;
    assert Next(cfg, a, 0) == ReadOption(cfg, a, 1);
  }
}
