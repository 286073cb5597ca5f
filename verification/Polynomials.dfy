// Polynomials over GF(2) as bit strings, the highest power first, and division
// by the generator x^16 + x^12 + x^5 + 1 of the CRC.
module Polynomials {

  type Bits = seq<bool>

  function Zeros(n: nat): (z: Bits)
    ensures |z| == n
  {
    seq(n, _ => false)
  }

  function Ones(n: nat): (z: Bits)
    ensures |z| == n
  {
    seq(n, _ => true)
  }

  function Xor(a: Bits, b: Bits): (c: Bits)
    requires |a| == |b|
    ensures |c| == |a|
  {
    seq(|a|, i requires 0 <= i < |a| == |b| => a[i] != b[i])
  }

  // x^16 + x^12 + x^5 + 1.
  function Generator(): (g: Bits)
    ensures |g| == 17 && g[0] && g[16]
  {
    seq(17, i => i == 0 || i == 4 || i == 11 || i == 16)
  }

  // The generator without its leading 1.
  function Low(): (g: Bits)
    ensures |g| == 16
  {
    Generator()[1..]
  }

  // q times the generator, with 16 more bits than q.
  function Times(q: Bits): (p: Bits)
    ensures |p| == |q| + 16
  {
    if |q| == 0 then Zeros(16) else
      var k := |q| - 1;
      Xor(Times(q[..k]) + [false], Zeros(k) + TimesBit(q[k]))
  }

  function TimesBit(b: bool): (p: Bits)
    ensures |p| == 17
  {
    if b then Generator() else Zeros(17)
  }

  // r is the remainder of p modulo the generator.
  ghost predicate IsRemainder(p: Bits, r: Bits) {
    |p| >= 16 && |r| == 16 &&
    exists q :: |q| + 16 == |p| && p == Xor(Times(q), Zeros(|q|) + r)
  }

  // --------------------------------------------------------------- uniqueness

  lemma XorSwap(p: Bits, u: Bits, q: Bits, v: Bits)
    requires |p| == |u| == |q| == |v|
    ensures Xor(Xor(p, u), Xor(q, v)) == Xor(Xor(p, q), Xor(u, v))
  {
  }

  lemma XorParts(p: Bits, q: Bits, n: nat, x: bool, y: bool)
    requires |p| == |q|
    ensures Xor(p + [false], q + [false]) == Xor(p, q) + [false]
    ensures Xor(Zeros(n) + TimesBit(x), Zeros(n) + TimesBit(y)) == Zeros(n) + TimesBit(x != y)
  {
  }

  lemma {:induction false} TimesXor(a: Bits, b: Bits)
    requires |a| == |b|
    ensures Times(Xor(a, b)) == Xor(Times(a), Times(b))
  {
    if |a| == 0 {
      assert Xor(a, b) == a == b;
      assert Xor(Zeros(16), Zeros(16)) == Zeros(16);
    } else {
      var k := |a| - 1;
      TimesXor(a[..k], b[..k]);
      XorLast(a, b);
      hide Xor, Zeros, TimesBit;
      var p, q := Times(a[..k]), Times(b[..k]);
      var u, v := Zeros(k) + TimesBit(a[k]), Zeros(k) + TimesBit(b[k]);
      XorSwap(p + [false], u, q + [false], v);
      XorParts(p, q, k, a[k], b[k]);
    }
  }

  lemma XorLast(a: Bits, b: Bits)
    requires |a| == |b| > 0
    ensures Xor(a, b)[..|a| - 1] == Xor(a[..|a| - 1], b[..|a| - 1])
    ensures Xor(a, b)[|a| - 1] == (a[|a| - 1] != b[|a| - 1])
  {
  }

  // A product whose leading |q| bits vanish has a vanishing factor.
  lemma {:induction false} LeadingZeros(q: Bits)
    requires forall i :: 0 <= i < |q| ==> !Times(q)[i]
    ensures q == Zeros(|q|)
  {
    if |q| > 0 {
      var k := |q| - 1;
      var p := Times(q[..k]);
      forall i | 0 <= i < k
        ensures !p[i]
      {
        assert Times(q)[i] == p[i];
      }
      LeadingZeros(q[..k]);
      TimesZeros(k);
      assert Times(q)[k] == q[k];
    }
  }

  lemma {:induction false} TimesZeros(n: nat)
    ensures Times(Zeros(n)) == Zeros(n + 16)
  {
    if n > 0 {
      TimesZeros(n - 1);
      assert Zeros(n)[..n - 1] == Zeros(n - 1);
    }
  }

  // The same p from two pairs: the differences agree.
  lemma XorCancel(p: Bits, t: Bits, u: Bits, n: nat, r: Bits, s: Bits)
    requires |t| == |u| == n + 16 && |r| == |s| == 16
    requires p == Xor(t, Zeros(n) + r) && p == Xor(u, Zeros(n) + s)
    ensures Xor(t, u) == Zeros(n) + Xor(r, s)
  {
    forall i | 0 <= i < n + 16
      ensures Xor(t, u)[i] == (Zeros(n) + Xor(r, s))[i]
    {
      assert p[i] == (t[i] != (Zeros(n) + r)[i]);
      assert p[i] == (u[i] != (Zeros(n) + s)[i]);
    }
  }

  lemma XorZero(r: Bits, s: Bits, n: nat)
    requires |r| == |s| == 16 && Zeros(n) + Xor(r, s) == Zeros(n + 16)
    ensures r == s
  {
    forall i | 0 <= i < 16
      ensures r[i] == s[i]
    {
      assert (Zeros(n) + Xor(r, s))[n + i] == Zeros(n + 16)[n + i];
    }
  }

  lemma RemainderUnique(p: Bits, r: Bits, s: Bits)
    requires IsRemainder(p, r) && IsRemainder(p, s)
    ensures r == s
  {
    hide Xor, Times, Zeros;
    var n := |p| - 16;
    var q :| |q| + 16 == |p| && p == Xor(Times(q), Zeros(|q|) + r);
    var u :| |u| + 16 == |p| && p == Xor(Times(u), Zeros(|u|) + s);
    TimesXor(q, u);
    XorCancel(p, Times(q), Times(u), n, r, s);
    ZerosInFront(Xor(r, s), n);
    LeadingZeros(Xor(q, u));
    TimesZeros(n);
    XorZero(r, s, n);
  }

  lemma ZerosInFront(x: Bits, n: nat)
    ensures forall i :: 0 <= i < n ==> !(Zeros(n) + x)[i]
  {
  }

  // ---------------------------------------------------------------- division

  // One step of long division on the 16-bit register: the bit x is added to
  // the top, the register moves up, and the generator is taken off if the bit
  // that leaves is set.
  function Step(r: Bits, x: bool): (s: Bits)
    requires |r| == 16
    ensures |s| == 16
  {
    var s := r[1..] + [false];
    if r[0] != x then Xor(s, Low()) else s
  }

  // The register after the bits m, starting from all ones.
  function Register(m: Bits): (r: Bits)
    ensures |r| == 16
  {
    if |m| == 0 then Ones(16) else Step(Register(m[..|m| - 1]), m[|m| - 1])
  }

  // The quotient bits that the register produces.
  function Quotient(m: Bits): (q: Bits)
    ensures |q| == |m|
  {
    if |m| == 0 then [] else
      var k := |m| - 1;
      Quotient(m[..k]) + [Register(m[..k])[0] != m[k]]
  }

  // m times x^16 with its first 16 bits inverted: the all-ones start.
  function Dividend(m: Bits): (p: Bits)
    ensures |p| == |m| + 16
  {
    Xor(m + Zeros(16), Ones(16) + Zeros(|m|))
  }

  lemma DividendStep(m: Bits, x: bool)
    ensures Dividend(m + [x]) == Xor(Dividend(m) + [false], Zeros(|m|) + ([x] + Zeros(16)))
  {
    var n := |m|;
    var p, d := Dividend(m + [x]), Dividend(m);
    assert (m + [x]) + Zeros(16) == m + ([x] + Zeros(16));
    forall i | 0 <= i < n + 17
      ensures p[i] == ((d + [false])[i] != (Zeros(n) + ([x] + Zeros(16)))[i])
    {
      if i < n + 16 {
        assert d[i] == ((m + Zeros(16))[i] != (Ones(16) + Zeros(n))[i]);
      }
    }
  }

  // Taking x into the register, on the 17 bits it concerns.
  lemma TailStep(r: Bits, x: bool)
    requires |r| == 16
    ensures Xor(r + [false], [x] + Zeros(16)) ==
            Xor(TimesBit(r[0] != x), [false] + Step(r, x))
  {
    var a := Xor(r + [false], [x] + Zeros(16));
    var b := Xor(TimesBit(r[0] != x), [false] + Step(r, x));
    var s := r[1..] + [false];
    hide Generator;
    forall k | 0 <= k < 17
      ensures a[k] == b[k]
    {
      if k > 0 {
        assert Step(r, x)[k - 1] == (s[k - 1] != (r[0] != x && Low()[k - 1]));
      }
    }
  }

  lemma TimesStep(q: Bits, b: bool)
    ensures Times(q + [b]) == Xor(Times(q) + [false], Zeros(|q|) + TimesBit(b))
  {
    hide Xor, TimesBit, Zeros;
    assert (q + [b])[..|q|] == q;
  }

  lemma RegisterStep(m: Bits, x: bool)
    ensures Register(m + [x]) == Step(Register(m), x)
    ensures Quotient(m + [x]) == Quotient(m) + [Register(m)[0] != x]
  {
    assert (m + [x])[..|m|] == m;
  }

  // The bookkeeping of one division step: d and t are dividend and product so
  // far, c and g are added to their ends.
  lemma XorStep(d: Bits, t: Bits, n: nat, r: Bits, c: Bits, g: Bits, s: Bits)
    requires |t| == n + 16 && |r| == 16 && |c| == 17 && |g| == 17 && |s| == 16
    requires d == Xor(t, Zeros(n) + r) && Xor(r + [false], c) == Xor(g, [false] + s)
    ensures Xor(d + [false], Zeros(n) + c) == Xor(Xor(t + [false], Zeros(n) + g), Zeros(n + 1) + s)
  {
    forall i | 0 <= i < n + 17
      ensures Xor(d + [false], Zeros(n) + c)[i] == Xor(Xor(t + [false], Zeros(n) + g), Zeros(n + 1) + s)[i]
    {
      if i >= n {
        var k := i - n;
        assert Xor(r + [false], c)[k] == Xor(g, [false] + s)[k];
        assert (Zeros(n + 1) + s)[i] == ([false] + s)[k];
      }
    }
  }

  lemma {:induction false} Divides(m: Bits)
    ensures Dividend(m) == Xor(Times(Quotient(m)), Zeros(|m|) + Register(m))
  {
    if |m| == 0 {
      DividesNothing();
    } else {
      hide Xor, Times, TimesBit, Dividend, Step, Zeros, Register, Quotient;
      var n, x := |m| - 1, m[|m| - 1];
      var k := m[..n];
      assert m == k + [x];
      var r, b := Register(k), Register(k)[0] != x;
      Divides(k);
      RegisterStep(k, x);
      DividendStep(k, x);
      TimesStep(Quotient(k), b);
      TailStep(r, x);
      XorStep(Dividend(k), Times(Quotient(k)), n, r, [x] + Zeros(16), TimesBit(b), Step(r, x));
    }
  }

  lemma DividesNothing()
    ensures Dividend([]) == Xor(Times(Quotient([])), Zeros(0) + Register([]))
  {
  }

  lemma RegisterIsRemainder(m: Bits)
    ensures IsRemainder(Dividend(m), Register(m))
  {
    Divides(m);
  }

  // ------------------------------------------------------------ burst errors

  // The bit shifted in at the end shows whether the generator was taken off.
  lemma StepEnds(r: Bits, x: bool)
    requires |r| == 16
    ensures Step(r, x)[15] == (r[0] != x)
    ensures forall i :: 0 <= i < 15 ==> Step(r, x)[i] == (r[i + 1] != ((r[0] != x) && Low()[i]))
  {
  }

  ghost predicate AgreeFrom(r: Bits, s: Bits, j: nat)
    requires |r| == |s| == 16
  {
    forall i :: j <= i < 16 ==> r[i] == s[i]
  }

  lemma StepBack(r: Bits, x: bool, s: Bits, y: bool, j: nat)
    requires |r| == |s| == 16 && j <= 15 && AgreeFrom(Step(r, x), Step(s, y), j)
    ensures (r[0] != x) == (s[0] != y) && AgreeFrom(r, s, j + 1)
  {
    hide Step, Low;
    StepEnds(r, x);
    StepEnds(s, y);
    forall i | j + 1 <= i < 16
      ensures r[i] == s[i]
    {
      assert Step(r, x)[i - 1] == Step(s, y)[i - 1];
      assert r[(i - 1) + 1] == s[(i - 1) + 1];
    }
  }

  lemma SplitLast(u: Bits, v: Bits)
    requires |v| > 0
    ensures u + v == (u + v[..|v| - 1]) + [v[|v| - 1]]
    ensures v == v[..|v| - 1] + [v[|v| - 1]]
  {
  }

  // From one register, at most 16 bits can be read off the result.
  lemma {:induction false} ShortInjective(u: Bits, a: Bits, b: Bits, j: nat)
    requires |a| == |b| && j + |a| <= 16 && AgreeFrom(Register(u + a), Register(u + b), j)
    ensures a == b
  {
    if |a| > 0 {
      hide Register, Step, AgreeFrom;
      var k := |a| - 1;
      var c, x, d, y := a[..k], a[k], b[..k], b[k];
      SplitLast(u, a);
      SplitLast(u, b);
      LastDecisions(u + c, x, u + d, y, j);
      ShortInjective(u, c, d, j + 1);
    }
  }

  lemma LastDecisions(m: Bits, x: bool, n: Bits, y: bool, j: nat)
    requires j <= 15 && AgreeFrom(Register(m + [x]), Register(n + [y]), j)
    ensures AgreeFrom(Register(m), Register(n), j + 1) && (m == n ==> x == y)
  {
    hide Register, Step, AgreeFrom;
    RegisterStep(m, x);
    RegisterStep(n, y);
    StepBack(Register(m), x, Register(n), y, j);
  }

  lemma StepSame(r: Bits, s: Bits, x: bool)
    requires |r| == |s| == 16 && Step(r, x) == Step(s, x)
    ensures r == s
  {
    StepBack(r, x, s, x, 0);
    assert r[0] == s[0];
  }

  lemma {:induction false} SuffixInjective(m: Bits, n: Bits, v: Bits)
    requires Register(m + v) == Register(n + v)
    ensures Register(m) == Register(n)
  {
    if |v| == 0 {
      assert m + v == m && n + v == n;
    } else {
      hide Register, Step;
      var k := |v| - 1;
      SplitLast(m, v);
      SplitLast(n, v);
      RegisterStep(m + v[..k], v[k]);
      RegisterStep(n + v[..k], v[k]);
      StepSame(Register(m + v[..k]), Register(n + v[..k]), v[k]);
      SuffixInjective(m, n, v[..k]);
    }
  }

  // Messages that differ only within 16 consecutive bits leave different
  // remainders.
  lemma BurstDetected(u: Bits, a: Bits, b: Bits, v: Bits)
    requires |a| == |b| <= 16 && a != b
    ensures Register(u + a + v) != Register(u + b + v)
  {
    if Register(u + a + v) == Register(u + b + v) {
      SuffixInjective(u + a, u + b, v);
      ShortInjective(u, a, b, 0);
      assert false;
    }
  }
}
