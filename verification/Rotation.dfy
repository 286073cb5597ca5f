// The in-place exchange of two adjacent blocks of an argument vector:
// gcd and permute_args of src-fdkaac/missings/getopt.c.
module Rotation {
  import opened Arithmetic

  // ---------------------------------------------------------------- divisors

  ghost predicate Divides(d: int, x: int) {
    exists k :: k * d == x
  }

  // g is the greatest common divisor of a and b: it divides both, and every
  // common divisor divides it.
  ghost predicate IsGcd(g: int, a: int, b: int) {
    g > 0 && Divides(g, a) && Divides(g, b) &&
    forall d :: Divides(d, a) && Divides(d, b) ==> Divides(d, g)
  }

  // g is an integer combination of a and b.
  ghost predicate IsCombination(g: int, a: int, b: int) {
    exists u, v :: u * a + v * b == g
  }

  lemma DividesSum(d: int, x: int, y: int, q: int)
    requires Divides(d, x) && Divides(d, y)
    ensures Divides(d, q * x + y)
  {
    var i :| i * d == x;
    var j :| j * d == y;
    assert (q * i + j) * d == q * (i * d) + j * d;
  }

  // One Euclidean step, from (b, r) to (a, b) with a = q * b + r, keeps the
  // greatest common divisor and the combinations.
  lemma EuclidGcd(g: int, a: int, b: int, q: int, r: int)
    requires a == q * b + r && IsGcd(g, b, r)
    ensures IsGcd(g, a, b)
  {
    DividesSum(g, b, r, q);
    forall d | Divides(d, a) && Divides(d, b)
      ensures Divides(d, g)
    {
      DividesSum(d, b, a, -q);
      assert -q * b + a == r;
    }
  }

  lemma EuclidCombination(g: int, a: int, b: int, q: int, r: int)
    requires a == q * b + r && IsCombination(g, b, r)
    ensures IsCombination(g, a, b)
  {
    var u, v :| u * b + v * r == g;
    assert v * a + (u - v * q) * b == u * b + v * (a - q * b);
  }

  lemma EuclidStep(g: int, a: int, b: int)
    requires b > 0
    requires IsGcd(g, b, a % b) && IsCombination(g, b, a % b)
    ensures IsGcd(g, a, b) && IsCombination(g, a, b)
  {
    EuclidGcd(g, a, b, a / b, a % b);
    EuclidCombination(g, a, b, a / b, a % b);
  }

  lemma GcdOfMultiple(a: int, b: int)
    requires b > 0 && a % b == 0
    ensures IsGcd(b, a, b) && IsCombination(b, a, b)
  {
    assert (a / b) * b == a;
    assert 1 * b == b;
    assert 0 * a + 1 * b == b;
  }

  ghost function GcdSpec(a: int, b: int): (g: int)
    requires b > 0
    ensures IsGcd(g, a, b) && IsCombination(g, a, b)
    decreases b
  {
    if a % b == 0 then
      GcdOfMultiple(a, b); b
    else
      EuclidStep(GcdSpec(b, a % b), a, b); GcdSpec(b, a % b)
  }

  method Gcd(a: int, b: int) returns (g: int)
    requires a >= 0 && b > 0
    ensures IsGcd(g, a, b) && IsCombination(g, a, b)
  {
    var x, y := a, b;
    var c := x % y;
    while c != 0
      invariant y > 0 && c == x % y
      invariant GcdSpec(x, y) == GcdSpec(a, b)
      decreases y
    {
      x := y;
      y := c;
      c := x % y;
    }
    g := y;
  }

  // ------------------------------------------------------------- the cycles

  // Positions are counted from the start of the span: the first block is
  // [0, p), the second [p, p + q).  Step is where one turn of the inner loop
  // goes next, Back is the position it came from.
  function Step(p: nat, q: nat, r: int): int {
    if r >= p then r - p else r + q
  }

  function Back(p: nat, q: nat, t: int): int {
    if t < q then t + p else t - q
  }

  // The position after k turns of cycle i.
  function Pos(p: nat, q: nat, i: nat, k: nat): (r: nat)
    requires i < q
    ensures r < p + q
  {
    if k == 0 then p + i else Step(p, q, Pos(p, q, i, k - 1))
  }

  // k turns move back by k * p, up to whole turns of the span.
  lemma {:induction false} PosForm(p: nat, q: nat, i: nat, k: nat) returns (c: int)
    requires i < q
    ensures Pos(p, q, i, k) == p + i - k * p + c * (p + q)
  {
    if k == 0 {
      c := 0;
    } else {
      var c0 := PosForm(p, q, i, k - 1);
      c := if Pos(p, q, i, k - 1) >= p then c0 else c0 + 1;
      assert k * p == (k - 1) * p + p;
      assert (c0 + 1) * (p + q) == c0 * (p + q) + (p + q);
    }
  }

  // Two positions that differ by whole turns of the span are the same.
  lemma PosCongruent(p: nat, q: nat, i: nat, k: nat, r: int, m: int)
    requires i < q && 0 <= r < p + q
    requires p + i - k * p == r + m * (p + q)
    ensures Pos(p, q, i, k) == r
  {
    var c := PosForm(p, q, i, k);
    assert m * (p + q) + c * (p + q) == (m + c) * (p + q);
    SmallMultiple(p + q, Pos(p, q, i, k) - r, m + c);
  }

  // What permute_args relies on: with g = gcd(p, q) there are g cycles of
  // length (p + q) / g each.
  ghost predicate Cycles(p: nat, q: nat, g: nat, len: nat) {
    p > 0 && q > 0 && g > 0 && len * g == p + q && g <= q &&
    Divides(g, p) && Divides(g, q) && IsCombination(g, p, q)
  }

  lemma CycleLength(p: nat, q: nat, g: nat)
    requires p > 0 && q > 0 && IsGcd(g, p, q) && IsCombination(g, p, q)
    ensures Cycles(p, q, g, (p + q) / g)
  {
    var a :| a * g == p;
    var b :| b * g == q;
    if b <= 0 {
      MulAtLeast(1 - b, g);
      assert false;
    }
    MulAtLeast(b, g);
    assert (a + b) * g == p + q;
    assert (p + q) / g == a + b by { DivideExact(a + b, g); }
  }

  // No cycle returns early: d * p is not a multiple of the span for d < len.
  lemma NoEarlyReturn(p: nat, q: nat, g: nat, len: nat, d: nat, c: int)
    requires Cycles(p, q, g, len) && 0 < d < len
    ensures d * p != c * (p + q)
  {
    var u, v :| u * p + v * q == g;
    if d * p == c * (p + q) {
      var m := (u - v) * c + d * v;
      ReturnAlgebra(p, q, g, len, d, c, u, v);
      DivideExact(d, g);
      DivideExact(m * len, g);
      SmallMultiple(len, d, m);
      assert false;
    }
  }

  lemma ReturnAlgebra(p: int, q: int, g: int, len: int, d: int, c: int, u: int, v: int)
    requires len * g == p + q && u * p + v * q == g && d * p == c * (p + q)
    ensures d * g == (((u - v) * c + d * v) * len) * g
  {
    var n := p + q;
    var w := u - v;
    calc {
      d * g;
      { assert w * p + v * n == g; }
      d * (w * p + v * n);
      { Distribute(d, w, p, v, n); }
      w * (d * p) + (d * v) * n;
      { Distribute(1, w, c * n, d * v, n); Collect(w, c, d * v, n); }
      (w * c + d * v) * n;
      { Collect2(w * c + d * v, len, g); }
      ((w * c + d * v) * len) * g;
    }
  }

  lemma Distribute(d: int, w: int, p: int, v: int, n: int)
    ensures d * (w * p + v * n) == w * (d * p) + (d * v) * n
  {
  }

  lemma Collect(w: int, c: int, x: int, n: int)
    ensures w * (c * n) + x * n == (w * c + x) * n
  {
  }

  lemma Collect2(m: int, len: int, g: int)
    ensures m * (len * g) == (m * len) * g
  {
  }

  lemma Distinct(p: nat, q: nat, g: nat, len: nat, i: nat, j: nat, k: nat)
    requires Cycles(p, q, g, len) && i < g && j < k < len
    ensures Pos(p, q, i, j) != Pos(p, q, i, k)
  {
    var a := PosForm(p, q, i, j);
    var b := PosForm(p, q, i, k);
    NoEarlyReturn(p, q, g, len, k - j, b - a);
    assert (k - j) * p == k * p - j * p;
    assert (b - a) * (p + q) == b * (p + q) - a * (p + q);
  }

  lemma Returns(p: nat, q: nat, g: nat, len: nat, i: nat)
    requires Cycles(p, q, g, len) && i < g
    ensures Pos(p, q, i, len) == Pos(p, q, i, 0)
  {
    var a :| a * g == p;
    assert len * p == a * (p + q) by { assert len * (a * g) == a * (len * g); }
    assert p + i - len * p == (p + i) + (-a) * (p + q);
    PosCongruent(p, q, i, len, p + i, -a);
  }

  // A cycle stays in one residue class modulo g ...
  lemma InClass(p: nat, q: nat, g: nat, len: nat, i: nat, k: nat)
    requires Cycles(p, q, g, len) && i < g
    ensures Pos(p, q, i, k) % g == i
  {
    var c := PosForm(p, q, i, k);
    var a :| a * g == p;
    CollectFactor(a, k, c, len, g);
    Residue(a - k * a + c * len, g, i);
  }

  lemma CollectFactor(a: int, k: int, c: int, len: int, g: int)
    ensures (a - k * a + c * len) * g == a * g - k * (a * g) + c * (len * g)
  {
  }

  // ... and visits all of it.
  lemma Covers(p: nat, q: nat, g: nat, len: nat, i: nat, r: nat) returns (k: nat)
    requires Cycles(p, q, g, len) && i < g && r < p + q && r % g == i
    ensures k < len && Pos(p, q, i, k) == r
  {
    var a :| a * g == p;
    var u, v :| u * p + v * q == g;
    var x, _ := QuotientRemainder(r, g);
    var t: int;
    t, k := QuotientRemainder((a - x) * (u - v), len);
    CoversAt(p, q, g, len, i, r, k, a, u, v, x, t);
  }

  lemma CoversAt(p: nat, q: nat, g: nat, len: nat, i: nat, r: nat, k: nat,
                 a: int, u: int, v: int, x: int, t: int)
    requires i < q && r < p + q && r == x * g + i
    requires len * g == p + q && a * g == p && u * p + v * q == g
    requires k == (a - x) * (u - v) - t * len
    ensures Pos(p, q, i, k) == r
  {
    var d := a - x;
    SolveStep(p, q, g, len, a, u, v, d, t);
    assert d * g == a * g - x * g;
    PosCongruent(p, q, i, k, r, d * v + t * a);
  }

  lemma SolveStep(p: int, q: int, g: int, len: int, a: int, u: int, v: int, d: int, t: int)
    requires len * g == p + q && a * g == p && u * p + v * q == g
    ensures (d * (u - v) - t * len) * p == d * g - (d * v + t * a) * (p + q)
  {
    var n := p + q;
    var w := u - v;
    calc {
      (d * w - t * len) * p;
      { Collect2(d, w, p); Collect2(t, len, p); }
      d * (w * p) - t * (len * p);
      { assert w * p == g - v * n; }
      d * (g - v * n) - t * (len * p);
      { assert len * (a * g) == a * (len * g); }
      d * (g - v * n) - t * (a * n);
      { Collect2(d, v, n); Collect2(t, a, n); }
      d * g - (d * v + t * a) * n;
    }
  }

  // -------------------------------------------------------------- the result

  // The two adjacent blocks [lo, mid) and [mid, hi) change places.
  function Exchange<T>(s: seq<T>, lo: nat, mid: nat, hi: nat): seq<T>
    requires lo <= mid <= hi <= |s|
  {
    s[..lo] + s[mid..hi] + s[lo..mid] + s[hi..]
  }

  lemma ExchangeAt<T>(s: seq<T>, lo: nat, mid: nat, hi: nat, t: nat)
    requires lo <= mid <= hi <= |s| && t < hi - lo
    ensures Exchange(s, lo, mid, hi)[lo + t] == s[lo + Back(mid - lo, hi - mid, t)]
  {
  }

  // Elements [lo, hi) of b whose residue class is below i are in place, the
  // rest is as in s.
  ghost predicate RotatedBelow<T>(s: seq<T>, b: seq<T>, lo: nat, mid: nat, hi: nat, g: nat, i: nat)
    requires lo <= mid <= hi <= |s| && g > 0
  {
    |b| == |s| && b[..lo] == s[..lo] && b[hi..] == s[hi..] &&
    forall r: nat :: r < hi - lo ==>
      b[lo + r] == if r % g < i then s[lo + Back(mid - lo, hi - mid, r)] else s[lo + r]
  }

  // The positions of cycle i in the array, its start at both ends.
  ghost function Walk(lo: nat, p: nat, q: nat, i: nat, len: nat): (w: seq<nat>)
    requires i < q
    ensures |w| == len + 1
    ensures forall k :: 0 <= k <= len ==> w[k] == lo + Pos(p, q, i, k)
  {
    seq(len + 1, k requires 0 <= k <= len => lo + Pos(p, q, i, k))
  }

  ghost predicate ClosedWalk(w: seq<nat>, bound: nat) {
    |w| >= 2 && w[0] == w[|w| - 1] &&
    (forall k :: 0 <= k < |w| ==> w[k] < bound) &&
    (forall j, k :: 0 <= j < k < |w| - 1 ==> w[j] != w[k])
  }

  // After j swaps along w: the positions visited hold what the position
  // before them held in s, the start holds what the last position visited
  // held, and the positions ahead are as in s.
  ghost predicate Shifted<T>(s: seq<T>, b: seq<T>, w: seq<nat>, j: nat)
    requires ClosedWalk(w, |s|) && |b| == |s| && j < |w|
  {
    (forall k :: 1 <= k <= j ==> b[w[k]] == s[w[k - 1]]) &&
    (j < |w| - 1 ==> b[w[0]] == s[w[j]]) &&
    (forall k :: j < k < |w| - 1 ==> b[w[k]] == s[w[k]])
  }

  // Outside residue class i of the span nothing has changed.
  ghost predicate OffCycle<T>(entry: seq<T>, b: seq<T>, lo: nat, hi: nat, g: nat, i: nat)
    requires g > 0
  {
    |b| == |entry| &&
    forall x: nat :: x < |b| && !InResidue(x, lo, hi, g, i) ==> b[x] == entry[x]
  }

  lemma BackOfStep(p: nat, q: nat, i: nat, k: nat)
    requires i < q
    ensures Back(p, q, Pos(p, q, i, k + 1)) == Pos(p, q, i, k)
  {
  }

  lemma SwapStep<T>(s: seq<T>, b: seq<T>, w: seq<nat>, j: nat)
    requires ClosedWalk(w, |s|) && |b| == |s| && j < |w| - 1
    requires Shifted(s, b, w, j)
    ensures Shifted(s, b[w[j + 1] := b[w[0]]][w[0] := b[w[j + 1]]], w, j + 1)
  {
  }

  ghost predicate InResidue(x: int, lo: nat, hi: nat, g: nat, i: nat)
    requires g > 0
  {
    lo <= x < hi && (x - lo) % g == i
  }

  lemma OffCycleSwap<T>(entry: seq<T>, b: seq<T>, lo: nat, hi: nat, g: nat, i: nat, x: nat, y: nat)
    requires g > 0 && hi <= |b| && OffCycle(entry, b, lo, hi, g, i)
    requires InResidue(x, lo, hi, g, i) && InResidue(y, lo, hi, g, i)
    ensures OffCycle(entry, b[x := b[y]][y := b[x]], lo, hi, g, i)
  {
  }

  lemma NextOnWalk(lo: nat, p: nat, q: nat, g: nat, i: nat, len: nat, j: nat)
    requires Cycles(p, q, g, len) && i < g && j < len
    ensures var w := Walk(lo, p, q, i, len);
            w[j + 1] == (if w[j] >= lo + p then w[j] - p else w[j] + q) &&
            InResidue(w[j + 1], lo, lo + p + q, g, i) && InResidue(w[0], lo, lo + p + q, g, i)
  {
    InClass(p, q, g, len, i, j + 1);
    InClass(p, q, g, len, i, 0);
  }

  lemma WalkCloses(lo: nat, p: nat, q: nat, g: nat, i: nat, len: nat)
    requires Cycles(p, q, g, len) && i < g
    ensures len >= 1 && ClosedWalk(Walk(lo, p, q, i, len), lo + p + q)
  {
    var w := Walk(lo, p, q, i, len);
    Returns(p, q, g, len, i);
    forall j, k | 0 <= j < k < len
      ensures w[j] != w[k]
    {
      Distinct(p, q, g, len, i, j, k);
    }
  }

  lemma CycleStart<T>(s: seq<T>, entry: seq<T>, lo: nat, mid: nat, hi: nat,
                      g: nat, len: nat, i: nat)
    requires lo < mid < hi <= |s|
    requires Cycles(mid - lo, hi - mid, g, len) && i < g
    requires RotatedBelow(s, entry, lo, mid, hi, g, i)
    ensures var w := Walk(lo, mid - lo, hi - mid, i, len);
            ClosedWalk(w, |s|) && Shifted(s, entry, w, 0)
  {
    var p, q := mid - lo, hi - mid;
    WalkCloses(lo, p, q, g, i, len);
    forall k | 0 <= k < len
      ensures entry[lo + Pos(p, q, i, k)] == s[lo + Pos(p, q, i, k)]
    {
      InClass(p, q, g, len, i, k);
    }
  }

  lemma CycleDone<T>(s: seq<T>, entry: seq<T>, b: seq<T>, lo: nat, mid: nat, hi: nat,
                     g: nat, len: nat, i: nat)
    requires lo < mid < hi <= |s| == |b|
    requires Cycles(mid - lo, hi - mid, g, len) && i < g
    requires RotatedBelow(s, entry, lo, mid, hi, g, i)
    requires var w := Walk(lo, mid - lo, hi - mid, i, len);
             ClosedWalk(w, |s|) && Shifted(s, b, w, len)
    requires OffCycle(entry, b, lo, hi, g, i)
    ensures RotatedBelow(s, b, lo, mid, hi, g, i + 1)
  {
    var p, q := mid - lo, hi - mid;
    var w := Walk(lo, p, q, i, len);
    forall r: nat | r < hi - lo
      ensures b[lo + r] == if r % g < i + 1 then s[lo + Back(p, q, r)] else s[lo + r]
    {
      var c := r % g;
      if c == i {
        var k := ArrivesAt(p, q, g, len, i, r);
        assert b[w[k]] == s[w[k - 1]];
      } else {
        assert !InResidue(lo + r, lo, hi, g, i);
        assert b[lo + r] == entry[lo + r];
      }
    }
    assert b[..lo] == entry[..lo];
    assert b[hi..] == entry[hi..];
  }

  lemma ArrivesAt(p: nat, q: nat, g: nat, len: nat, i: nat, r: nat) returns (k: nat)
    requires Cycles(p, q, g, len) && i < g && r < p + q && r % g == i
    ensures 1 <= k <= len && Pos(p, q, i, k) == r && Pos(p, q, i, k - 1) == Back(p, q, r)
  {
    k := Covers(p, q, g, len, i, r);
    if k == 0 {
      Returns(p, q, g, len, i);
      k := len;
    }
    BackOfStep(p, q, i, k - 1);
  }

  lemma RotationDone<T>(s: seq<T>, b: seq<T>, lo: nat, mid: nat, hi: nat, g: nat)
    requires lo <= mid <= hi <= |s| && g > 0
    requires RotatedBelow(s, b, lo, mid, hi, g, g)
    ensures b == Exchange(s, lo, mid, hi)
  {
    var e := Exchange(s, lo, mid, hi);
    forall x: nat | x < |s|
      ensures b[x] == e[x]
    {
      if x < lo {
        assert b[x] == b[..lo][x] == s[..lo][x];
      } else if x >= hi {
        assert b[x] == b[hi..][x - hi] == s[hi..][x - hi];
      } else {
        var r := x - lo;
        assert r % g < g;
        assert b[lo + r] == s[lo + Back(mid - lo, hi - mid, r)];
        ExchangeAt(s, lo, mid, hi, r);
      }
    }
  }

  method PermuteArgs<T>(panonoptStart: nat, panonoptEnd: nat, optEnd: nat, nargv: array<T>)
    requires panonoptStart < panonoptEnd < optEnd <= nargv.Length
    modifies nargv
    ensures nargv[..] == Exchange(old(nargv[..]), panonoptStart, panonoptEnd, optEnd)
  {
    ghost var s := nargv[..];
    var nnonopts := panonoptEnd - panonoptStart;
    var nopts := optEnd - panonoptEnd;
    var ncycle := Gcd(nnonopts, nopts);
    CycleLength(nnonopts, nopts, ncycle);
    var cyclelen := (optEnd - panonoptStart) / ncycle;
    var i := 0;
    while i < ncycle
      invariant 0 <= i <= ncycle
      invariant RotatedBelow(s, nargv[..], panonoptStart, panonoptEnd, optEnd, ncycle, i)
    {
      RotateCycle(panonoptStart, panonoptEnd, optEnd, nargv, s, ncycle, cyclelen, i);
      i := i + 1;
    }
    RotationDone(s, nargv[..], panonoptStart, panonoptEnd, optEnd, ncycle);
  }

  // The body of the outer loop: one cycle, cyclelen swaps with its start.
  method RotateCycle<T>(lo: nat, mid: nat, hi: nat, nargv: array<T>, ghost s: seq<T>,
                        ghost g: nat, cyclelen: nat, i: nat)
    requires lo < mid < hi <= nargv.Length == |s|
    requires Cycles(mid - lo, hi - mid, g, cyclelen) && i < g
    requires RotatedBelow(s, nargv[..], lo, mid, hi, g, i)
    modifies nargv
    ensures RotatedBelow(s, nargv[..], lo, mid, hi, g, i + 1)
  {
    var p, q := mid - lo, hi - mid;
    var cstart := mid + i;
    var pos := cstart;
    ghost var entry := nargv[..];
    ghost var w := Walk(lo, p, q, i, cyclelen);
    CycleStart(s, entry, lo, mid, hi, g, cyclelen, i);
    assert w[0] == cstart;
    var j := 0;
    while j < cyclelen
      invariant 0 <= j <= cyclelen
      invariant pos == w[j]
      invariant Shifted(s, nargv[..], w, j)
      invariant OffCycle(entry, nargv[..], lo, hi, g, i)
    {
      ghost var b := nargv[..];
      SwapStep(s, b, w, j);
      NextOnWalk(lo, p, q, g, i, cyclelen, j);
      OffCycleSwap(entry, b, lo, hi, g, i, w[j + 1], w[0]);
      if pos >= mid {
        pos := pos - p;
      } else {
        pos := pos + q;
      }
      assert pos == w[j + 1] && cstart == w[0];
      var swap := nargv[pos];
      nargv[pos] := nargv[cstart];
      nargv[cstart] := swap;
      assert nargv[..] == b[w[j + 1] := b[w[0]]][w[0] := b[w[j + 1]]];
      j := j + 1;
    }
    CycleDone(s, entry, nargv[..], lo, mid, hi, g, cyclelen, i);
  }
}
