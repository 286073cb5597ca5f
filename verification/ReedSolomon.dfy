// Codes over the field of 256 elements whose words vanish at the first powers
// of x, and the encoder of src-fdkaac/src/dab_rs.c as a function.
module ReedSolomon {
  import opened ByteField

  // ------------------------------------------------------ words as polynomials

  // The value at x^i of the polynomial with these coefficients, highest first.
  ghost function Value(c: seq<Byte>, i: nat): Byte {
    if |c| == 0 then 0 else Add(Power(i, Value(c[..|c| - 1], i)), c[|c| - 1])
  }

  function Sum(a: seq<Byte>, b: seq<Byte>): (c: seq<Byte>)
    requires |a| == |b|
    ensures |c| == |a| && forall k :: 0 <= k < |c| ==> c[k] == Add(a[k], b[k])
  {
    seq(|a|, k requires 0 <= k < |a| => Add(a[k], b[k]))
  }

  ghost function Scale(f: Byte, a: seq<Byte>): (c: seq<Byte>)
    ensures |c| == |a| && forall k :: 0 <= k < |c| ==> c[k] == Product(f, a[k])
  {
    seq(|a|, k requires 0 <= k < |a| => Product(f, a[k]))
  }

  lemma {:induction false} ValueSum(a: seq<Byte>, b: seq<Byte>, i: nat)
    requires |a| == |b|
    ensures Value(Sum(a, b), i) == Add(Value(a, i), Value(b, i))
    decreases |a|
  {
    hide Add, Power;
    AddZero(0);
    if |a| > 0 {
      var n := |a| - 1;
      var x, y := a[..n], b[..n];
      ValueSum(x, y, i);
      assert Sum(a, b)[..n] == Sum(x, y);
      PowerAdds(i, Value(x, i), Value(y, i));
      AddFour(Power(i, Value(x, i)), Power(i, Value(y, i)), a[n], b[n]);
    }
  }

  lemma {:induction false} ValueScale(f: Byte, a: seq<Byte>, i: nat)
    ensures Value(Scale(f, a), i) == Product(f, Value(a, i))
    decreases |a|
  {
    hide Add, Power, Product;
    ProductLaws(f, 0, 0, 0);
    if |a| > 0 {
      var n := |a| - 1;
      ValueScale(f, a[..n], i);
      assert Scale(f, a)[..n] == Scale(f, a[..n]);
      ProductLaws(f, Power(i, Value(a[..n], i)), a[n], 0);
      ProductLaws(f, Value(a[..n], i), 0, i);
    }
  }

  lemma {:induction false} ValueConcat(a: seq<Byte>, b: seq<Byte>, i: nat)
    ensures Value(a + b, i) == Add(Power(|b| * i, Value(a, i)), Value(b, i))
    decreases |b|
  {
    hide Add, Power;
    if |b| == 0 {
      assert a + b == a;
      AddZero(Value(a, i));
      ZeroTimes(i, Value(a, i));
    } else {
      var n := |b| - 1;
      ValueConcat(a, b[..n], i);
      assert (a + b)[..|a + b| - 1] == a + b[..n];
      PowerAdds(i, Power(n * i, Value(a, i)), Value(b[..n], i));
      PowerPlus(i, n * i, Value(a, i));
      OneMore(n, i);
      AddAssociates(Power(|b| * i, Value(a, i)), Power(i, Value(b[..n], i)), b[n]);
    }
  }

  lemma OneMore(n: nat, i: nat)
    ensures i + n * i == (n + 1) * i && n * i >= 0
  {
  }

  lemma ZeroTimes(i: nat, a: Byte)
    ensures Power(0 * i, a) == a
  {
  }

  // ------------------------------------------------- sums of a few powers

  datatype Term = Term(coef: Byte, loc: nat)

  ghost function Total(terms: seq<Term>, i: nat): Byte {
    if |terms| == 0 then 0
    else
      var t := terms[|terms| - 1];
      assert i * t.loc >= 0;
      Add(Total(terms[..|terms| - 1], i), Power(i * t.loc, t.coef))
  }

  ghost predicate Separate(terms: seq<Term>) {
    (forall k :: 0 <= k < |terms| ==> terms[k].coef != 0 && terms[k].loc < ORDER) &&
    (forall j, k :: 0 <= j < k < |terms| ==> terms[j].loc != terms[k].loc)
  }

  // Each coefficient multiplied by (x^loc + x^w).
  function Reduce(terms: seq<Term>, w: nat): (r: seq<Term>)
    ensures |r| == |terms|
    ensures forall k :: 0 <= k < |r| ==>
      r[k] == Term(Add(Power(terms[k].loc, terms[k].coef), Power(w, terms[k].coef)), terms[k].loc)
  {
    seq(|terms|, k requires 0 <= k < |terms| =>
      Term(Add(Power(terms[k].loc, terms[k].coef), Power(w, terms[k].coef)), terms[k].loc))
  }

  lemma {:induction false} ReducedTotal(terms: seq<Term>, w: nat, i: nat)
    ensures Total(Reduce(terms, w), i) == Add(Total(terms, i + 1), Power(w, Total(terms, i)))
    decreases |terms|
  {
    hide Add, Power;
    if |terms| == 0 {
      PowerZero(w, 0);
      AddZero(0);
    } else {
      var n := |terms| - 1;
      var front, t := terms[..n], terms[n];
      ReducedTotal(front, w, i);
      assert Reduce(terms, w)[..n] == Reduce(front, w);
      TermReduces(t, w, i);
      PowerAdds(w, Total(front, i), Power(i * t.loc, t.coef));
      AddFour(Total(front, i + 1), Power(w, Total(front, i)), Power((i + 1) * t.loc, t.coef), Power(w, Power(i * t.loc, t.coef)));
    }
  }

  lemma TermReduces(t: Term, w: nat, i: nat)
    ensures i * t.loc >= 0 && (i + 1) * t.loc >= 0
    ensures Power(i * t.loc, Add(Power(t.loc, t.coef), Power(w, t.coef))) ==
            Add(Power((i + 1) * t.loc, t.coef), Power(w, Power(i * t.loc, t.coef)))
  {
    hide Add, Power;
    var k := i * t.loc;
    assert (i + 1) * t.loc == k + t.loc;
    PowerAdds(k, Power(t.loc, t.coef), Power(w, t.coef));
    PowerPlus(k, t.loc, t.coef);
    PowerSwaps(k, w, t.coef);
  }

  lemma ReducedSeparate(terms: seq<Term>, w: nat)
    requires Separate(terms) && w < ORDER && forall k :: 0 <= k < |terms| ==> terms[k].loc != w
    ensures Separate(Reduce(terms, w))
  {
    hide Add, Power;
    forall k | 0 <= k < |terms| ensures Reduce(terms, w)[k].coef != 0 {
      MultiplesDiffer(terms[k].loc, w, terms[k].coef);
      AddCancels(Power(terms[k].loc, terms[k].coef), Power(w, terms[k].coef));
    }
  }

  // A sum of n separate terms does not vanish at all of the first n powers.
  lemma {:induction false} NotAllZero(terms: seq<Term>)
    requires |terms| > 0 && Separate(terms)
    ensures exists i :: 0 <= i < |terms| && Total(terms, i) != 0
    decreases |terms|
  {
    hide Add, Power, Total, Reduce;
    var n := |terms| - 1;
    var front, t := terms[..n], terms[n];
    if n == 0 {
      OneTerm(terms);
      assert Total(terms, 0) != 0;
    } else {
      ReducedSeparate(front, t.loc);
      NotAllZero(Reduce(front, t.loc));
      var i :| 0 <= i < n && Total(Reduce(front, t.loc), i) != 0;
      if Total(terms, i) == 0 && Total(terms, i + 1) == 0 {
        LastTermGone(terms, i);
        assert false;
      }
    }
  }

  lemma OneTerm(terms: seq<Term>)
    requires |terms| == 1 && terms[0].coef != 0
    ensures Total(terms, 0) != 0
  {
    hide Add;
    AddZero(terms[0].coef);
    assert 0 * terms[0].loc == 0;
  }

  lemma LastTermGone(terms: seq<Term>, i: nat)
    requires |terms| > 0 && Total(terms, i) == 0 && Total(terms, i + 1) == 0
    ensures var n := |terms| - 1; Total(Reduce(terms[..n], terms[n].loc), i) == 0
  {
    hide Add, Power, Reduce;
    var n := |terms| - 1;
    var front, t := terms[..n], terms[n];
    var w, k := t.loc, i * t.loc;
    assert (i + 1) * w == w + k;
    ReducedTotal(front, w, i);
    AddCancels(Total(front, i), Power(k, t.coef));
    AddCancels(Total(front, i + 1), Power((i + 1) * w, t.coef));
    PowerPlus(w, k, t.coef);
    AddZero(Power(w, Total(front, i)));
  }

  // ------------------------------------------------------------ the distance

  function Raise(terms: seq<Term>): (r: seq<Term>)
    ensures |r| == |terms| && forall k :: 0 <= k < |r| ==> r[k] == Term(terms[k].coef, terms[k].loc + 1)
  {
    seq(|terms|, k requires 0 <= k < |terms| => Term(terms[k].coef, terms[k].loc + 1))
  }

  // The terms of a word other than 0.
  function Terms(c: seq<Byte>): seq<Term> {
    if |c| == 0 then []
    else Raise(Terms(c[..|c| - 1])) + if c[|c| - 1] != 0 then [Term(c[|c| - 1], 0)] else []
  }

  function Weight(c: seq<Byte>): nat {
    if |c| == 0 then 0 else Weight(c[..|c| - 1]) + if c[|c| - 1] != 0 then 1 else 0
  }

  lemma {:induction false} TermsShape(c: seq<Byte>)
    ensures |Terms(c)| == Weight(c)
    ensures forall k :: 0 <= k < |Terms(c)| ==> Terms(c)[k].coef != 0 && Terms(c)[k].loc < |c|
    ensures forall j, k :: 0 <= j < k < |Terms(c)| ==> Terms(c)[j].loc != Terms(c)[k].loc
    decreases |c|
  {
    if |c| > 0 {
      TermsShape(c[..|c| - 1]);
    }
  }

  lemma {:induction false} RaisedTotal(terms: seq<Term>, i: nat)
    ensures Total(Raise(terms), i) == Power(i, Total(terms, i))
    decreases |terms|
  {
    hide Add, Power;
    if |terms| == 0 {
      PowerZero(i, 0);
    } else {
      var n := |terms| - 1;
      var front, t := terms[..n], terms[n];
      RaisedTotal(front, i);
      assert Raise(terms)[..n] == Raise(front);
      OneMore(t.loc, i);
      PowerPlus(i, i * t.loc, t.coef);
      PowerAdds(i, Total(front, i), Power(i * t.loc, t.coef));
    }
  }

  lemma {:induction false} ValueOfTerms(c: seq<Byte>, i: nat)
    ensures Value(c, i) == Total(Terms(c), i)
    decreases |c|
  {
    hide Add, Power;
    if |c| > 0 {
      var n := |c| - 1;
      ValueOfTerms(c[..n], i);
      RaisedTotal(Terms(c[..n]), i);
      if c[n] != 0 {
        LastTerm(Raise(Terms(c[..n])), c[n], i);
      } else {
        AddZero(Power(i, Value(c[..n], i)));
        assert Raise(Terms(c[..n])) + [] == Raise(Terms(c[..n]));
      }
    }
  }

  lemma LastTerm(terms: seq<Term>, a: Byte, i: nat)
    ensures Total(terms + [Term(a, 0)], i) == Add(Total(terms, i), a)
  {
    hide Add;
    var all := terms + [Term(a, 0)];
    assert all[..|terms|] == terms && i * 0 == 0;
  }

  ghost predicate Vanishes(c: seq<Byte>, roots: nat) {
    forall i :: 0 <= i < roots ==> Value(c, i) == 0
  }

  // A word that vanishes at the first powers of x is 0 or has more entries
  // other than 0 than there are powers.
  lemma WeightBound(c: seq<Byte>, roots: nat)
    requires |c| <= ORDER && Vanishes(c, roots) && Weight(c) > 0
    ensures Weight(c) > roots
  {
    hide Value, Total, Terms, Weight;
    TermsShape(c);
    NotAllZero(Terms(c));
    var i :| 0 <= i < Weight(c) && Total(Terms(c), i) != 0;
    ValueOfTerms(c, i);
  }

  function Distance(a: seq<Byte>, b: seq<Byte>): nat
    requires |a| == |b|
  {
    Weight(Sum(a, b))
  }

  lemma {:induction false} DistanceZero(a: seq<Byte>, b: seq<Byte>)
    requires |a| == |b|
    ensures Distance(a, b) == 0 <==> a == b
    decreases |a|
  {
    hide Add;
    if |a| > 0 {
      var n := |a| - 1;
      DistanceZero(a[..n], b[..n]);
      assert Sum(a, b)[..n] == Sum(a[..n], b[..n]);
      AddCancels(a[n], b[n]);
      assert a == a[..n] + [a[n]] && b == b[..n] + [b[n]];
    }
  }

  // How many places a and b differ in.
  lemma {:induction false} Triangle(a: seq<Byte>, b: seq<Byte>, c: seq<Byte>)
    requires |a| == |b| == |c|
    ensures Distance(a, c) <= Distance(a, b) + Distance(b, c) && Distance(a, b) == Distance(b, a)
    decreases |a|
  {
    hide Add;
    if |a| > 0 {
      var n := |a| - 1;
      Triangle(a[..n], b[..n], c[..n]);
      assert Sum(a, b)[..n] == Sum(a[..n], b[..n]) && Sum(b, c)[..n] == Sum(b[..n], c[..n]);
      assert Sum(a, c)[..n] == Sum(a[..n], c[..n]) && Sum(b, a)[..n] == Sum(b[..n], a[..n]);
      AddCancels(a[n], b[n]);
      AddCancels(b[n], c[n]);
      AddCancels(a[n], c[n]);
      AddCommutes(a[n], b[n]);
    }
  }

  lemma CodeDistance(a: seq<Byte>, b: seq<Byte>, roots: nat)
    requires |a| == |b| <= ORDER && Vanishes(a, roots) && Vanishes(b, roots) && a != b
    ensures Distance(a, b) > roots
  {
    hide Value, Weight, Add;
    forall i | 0 <= i < roots ensures Value(Sum(a, b), i) == 0 {
      ValueSum(a, b, i);
      AddZero(0);
    }
    DistanceZero(a, b);
    WeightBound(Sum(a, b), roots);
  }

  // ------------------------------------------------------------ the encoder

  const NROOTS := 10
  const NDATA := 110

  // The product of the (X - x^i) for i < n, highest coefficient first.
  ghost function Generator(n: nat): (g: seq<Byte>)
    ensures |g| == n + 1
  {
    if n == 0 then [1]
    else Sum(Generator(n - 1) + [0], [0] + Scale(Power(n - 1, 1), Generator(n - 1)))
  }

  lemma {:induction false} GeneratorVanishes(n: nat)
    requires n <= ORDER
    ensures Vanishes(Generator(n), n) && Generator(n)[0] == 1
  {
    hide Add, Power, Value, Scale;
    if n > 0 {
      GeneratorVanishes(n - 1);
      AddZero(1);
      forall i | 0 <= i < n ensures Value(Generator(n), i) == 0 {
        GeneratorValue(n, i);
        PowerZero(i, 0);
        PowerZero(n - 1, 0);
        AddZero(Power(i, Value(Generator(n - 1), i)));
      }
    }
  }

  // Multiplying by X - x^(n - 1).
  lemma GeneratorValue(n: nat, i: nat)
    requires 0 < n <= ORDER
    ensures var v := Value(Generator(n - 1), i);
      Value(Generator(n), i) == Add(Power(i, v), Power(n - 1, v))
  {
    hide Add, Power, Product, Generator, Value;
    var p := Generator(n - 1);
    var q := Scale(Power(n - 1, 1), p);
    GeneratorStep(n);
    ValueSum(p + [0], [0] + q, i);
    ZeroBehind(p, i);
    ZeroInFront(q, i);
    ValueScale(Power(n - 1, 1), p, i);
    TimesPower(n - 1, Value(p, i));
  }

  lemma ZeroBehind(p: seq<Byte>, i: nat)
    ensures Value(p + [0], i) == Power(i, Value(p, i))
  {
    hide Add, Power, Value;
    ValueConcat(p, [0], i);
    SingleValue(0, i);
    assert 1 * i == i;
    AddZero(Power(i, Value(p, i)));
  }

  lemma ZeroInFront(q: seq<Byte>, i: nat)
    ensures Value([0] + q, i) == Value(q, i)
  {
    hide Add, Power, Value;
    ValueConcat([0], q, i);
    SingleValue(0, i);
    PowerZero(|q| * i, 0);
    AddZero(Value(q, i));
  }

  lemma GeneratorStep(n: nat)
    requires n > 0
    ensures var p := Generator(n - 1);
      Generator(n) == Sum(p + [0], [0] + Scale(Power(n - 1, 1), p))
  {
  }

  lemma TimesPower(k: nat, a: Byte)
    requires k < ORDER
    ensures Product(Power(k, 1), a) == Power(k, a)
  {
    hide Power, Log;
    LogOf(k);
  }

  lemma SingleValue(a: Byte, i: nat)
    ensures Value([a], i) == a
  {
    hide Add, Power;
    PowerZero(i, 0);
    AddZero(a);
  }

  // No coefficient is 0, as the code relies on when it stores logarithms.
  lemma GeneratorIsFull(n: nat)
    requires n < ORDER
    ensures forall k :: 0 <= k <= n ==> Generator(n)[k] != 0
  {
    hide Generator, Value;
    GeneratorVanishes(n);
    FirstCounts(Generator(n));
    WeightBound(Generator(n), n);
    FullWeight(Generator(n));
  }

  lemma {:induction false} FirstCounts(c: seq<Byte>)
    requires |c| > 0 && c[0] != 0
    ensures Weight(c) > 0
    decreases |c|
  {
    if |c| > 1 {
      FirstCounts(c[..|c| - 1]);
    }
  }

  lemma {:induction false} FullWeight(c: seq<Byte>)
    ensures Weight(c) <= |c|
    ensures Weight(c) == |c| ==> forall k :: 0 <= k < |c| ==> c[k] != 0
    decreases |c|
  {
    if |c| > 0 {
      FullWeight(c[..|c| - 1]);
    }
  }

  // One data byte through the shift register of dab_rs_encode.
  ghost function Feed(p: seq<Byte>, d: Byte): (q: seq<Byte>)
    requires |p| == NROOTS
    ensures |q| == NROOTS
  {
    Sum(p[1..] + [0], Scale(Add(d, p[0]), Generator(NROOTS)[1..]))
  }

  ghost function Parity(data: seq<Byte>): (p: seq<Byte>)
    ensures |p| == NROOTS
  {
    if |data| == 0 then [0, 0, 0, 0, 0, 0, 0, 0, 0, 0]
    else Feed(Parity(data[..|data| - 1]), data[|data| - 1])
  }

  // The register holds the remainder of the data times X^10.
  lemma FeedValue(p: seq<Byte>, d: Byte, i: nat)
    requires |p| == NROOTS && i < NROOTS
    ensures Value(Feed(p, d), i) == Add(Power(i, Value(p, i)), Power(NROOTS * i, d))
  {
    hide Add, Power, Product, Value, Generator, Scale;
    var f, g := Add(d, p[0]), Generator(NROOTS);
    GeneratorVanishes(NROOTS);
    ValueSum(p[1..] + [0], Scale(f, g[1..]), i);
    ValueScale(f, g[1..], i);
    Leading(g, i);
    AddCancels(Power(NROOTS * i, 1), Value(g[1..], i));
    ProductLaws(f, 0, 0, NROOTS * i);
    ShiftedValue(p, i);
    var u, v, w := Power(i, Value(p, i)), Power(NROOTS * i, p[0]), Power(NROOTS * i, d);
    PowerAdds(NROOTS * i, d, p[0]);
    AddCommutes(w, v);
    AddFour(u, v, v, w);
    AddAssociates(u, v, Add(v, w));
    AddAssociates(v, v, w);
    AddZero(v);
    AddZero(w);
  }

  lemma Leading(c: seq<Byte>, i: nat)
    requires |c| > 0
    ensures Value(c, i) == Add(Power((|c| - 1) * i, c[0]), Value(c[1..], i))
  {
    hide Add, Power;
    assert c == [c[0]] + c[1..];
    ValueConcat([c[0]], c[1..], i);
    SingleValue(c[0], i);
  }

  lemma ShiftedValue(p: seq<Byte>, i: nat)
    requires |p| == NROOTS
    ensures Value(p[1..] + [0], i) == Add(Power(i, Value(p, i)), Power(NROOTS * i, p[0]))
  {
    hide Add, Power, Value;
    ZeroBehind(p[1..], i);
    var v, k := Value(p[1..], i), (NROOTS - 1) * i;
    Leading(p, i);
    PowerAdds(i, Power(k, p[0]), v);
    PowerPlus(i, k, p[0]);
    var a, b := Power(NROOTS * i, p[0]), Power(i, v);
    AddCommutes(a, b);
    AddAssociates(b, a, a);
    AddZero(a);
    AddZero(b);
  }

  lemma {:induction false} ParityValue(data: seq<Byte>, i: nat)
    requires i < NROOTS
    ensures Value(Parity(data), i) == Power(NROOTS * i, Value(data, i))
    decreases |data|
  {
    hide Add, Power, Feed;
    if |data| == 0 {
      ZeroWord(Parity(data), i);
      PowerZero(NROOTS * i, 0);
    } else {
      var n := |data| - 1;
      var v := Value(data[..n], i);
      ParityValue(data[..n], i);
      FeedValue(Parity(data[..n]), data[n], i);
      PowerAdds(NROOTS * i, Power(i, v), data[n]);
      PowerSwaps(NROOTS * i, i, v);
    }
  }

  lemma {:induction false} ZeroWord(c: seq<Byte>, i: nat)
    requires forall k :: 0 <= k < |c| ==> c[k] == 0
    ensures Value(c, i) == 0
    decreases |c|
  {
    hide Add, Power;
    if |c| > 0 {
      ZeroWord(c[..|c| - 1], i);
      PowerZero(i, 0);
      AddZero(0);
    }
  }

  // ------------------------------------------------------------ the theorems

  // Data and parity together vanish at x^0 to x^9.
  lemma EncodesCodeword(data: seq<Byte>)
    ensures Vanishes(data + Parity(data), NROOTS)
  {
    hide Add, Power, Value, Parity;
    forall i | 0 <= i < NROOTS ensures Value(data + Parity(data), i) == 0 {
      ValueConcat(data, Parity(data), i);
      ParityValue(data, i);
      AddZero(Value(Parity(data), i));
    }
  }

  // The parity bytes are the only ten that make it so.
  lemma ParityUnique(data: seq<Byte>, q: seq<Byte>)
    requires |q| == NROOTS && |data| + NROOTS <= ORDER
    ensures Vanishes(data + q, NROOTS) <==> q == Parity(data)
  {
    hide Value, Parity, Weight;
    var p := Parity(data);
    EncodesCodeword(data);
    if Vanishes(data + q, NROOTS) && q != p {
      assert (data + p)[|data|..] == p && (data + q)[|data|..] == q;
      CodeDistance(data + p, data + q, NROOTS);
      SameData(data, p, q);
      FullWeight(Sum(p, q));
      assert false;
    }
  }

  lemma {:induction false} SameData(data: seq<Byte>, p: seq<Byte>, q: seq<Byte>)
    requires |p| == |q|
    ensures Distance(data + p, data + q) == Distance(p, q)
    decreases |p|
  {
    hide Add;
    if |p| == 0 {
      assert data + p == data && data + q == data;
      DistanceZero(data, data);
    } else {
      var n := |p| - 1;
      SameData(data, p[..n], q[..n]);
      assert (data + p)[..|data| + n] == data + p[..n] && (data + q)[..|data| + n] == data + q[..n];
      assert Sum(data + p, data + q)[..|data| + n] == Sum(data + p[..n], data + q[..n]);
      assert Sum(p, q)[..n] == Sum(p[..n], q[..n]);
    }
  }

  // Encoded rows differ in eleven places or more, so that a row with up to
  // five wrong bytes is near one encoded row only.
  lemma FiveErrorsDecodable(a: seq<Byte>, b: seq<Byte>, row: seq<Byte>)
    requires |a| == |b| && |a| + NROOTS == |row| <= ORDER
    requires Distance(a + Parity(a), row) <= 5 && Distance(b + Parity(b), row) <= 5
    ensures a == b
  {
    hide Value, Parity, Weight;
    var x, y := a + Parity(a), b + Parity(b);
    EncodesCodeword(a);
    EncodesCodeword(b);
    if x != y {
      CodeDistance(x, y, NROOTS);
      Triangle(x, row, y);
      Triangle(y, row, y);
      assert false;
    }
    assert x[..|a|] == a && y[..|b|] == b;
  }
}
