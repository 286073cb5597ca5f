// The Reed-Solomon encoder of src-fdkaac/src/dab_rs.c with its tables.
module DabRs {
  import opened Arithmetic
  import opened ByteField
  import opened ReedSolomon

  const A0 := 255

  // mod255: lines 31-37.
  method Mod255(n: nat) returns (x: nat)
    ensures x == n % 255
  {
    x := n;
    while x >= 255
      invariant x % 255 == n % 255
    {
      FoldsModulo(x);
      x := x - 255;
      x := x / 256 + x % 256;
    }
  }

  lemma FoldsModulo(x: nat)
    requires x >= 255
    ensures var y := x - 255; (y / 256 + y % 256) % 255 == x % 255 && y / 256 + y % 256 < x
  {
    var y := x - 255;
    var q := y / 256;
    assert y / 256 + y % 256 == y - 255 * q;
    var k, r := QuotientRemainder(x, 255);
    assert y - 255 * q == (k - 1 - q) * 255 + r;
    Residue(k - 1 - q, 255, r);
  }

  // The product as the tables give it.
  lemma ByTables(f: Byte, a: Byte)
    requires f != 0 && a != 0
    ensures Power((Log(f) + Log(a)) % 255, 1) == Product(f, a)
  {
    ProductByLogs(f, a);
  }

  class Encoder {
    const alphaTo: array<Byte>
    const indexOf: array<nat>
    const genpoly: array<nat>     // logarithms, lowest power first
    var rsInitDone: bool

    constructor ()
      ensures Valid() && !rsInitDone
      ensures fresh(alphaTo) && fresh(indexOf) && fresh(genpoly)
    {
      alphaTo := new Byte[256];
      indexOf := new nat[256];
      genpoly := new nat[NROOTS + 1];
      rsInitDone := false;
    }

    ghost predicate Valid()
      reads this, alphaTo, indexOf, genpoly
    {
      alphaTo.Length == indexOf.Length == 256 && genpoly.Length == NROOTS + 1 && indexOf != genpoly &&
      alphaTo as object != indexOf && alphaTo as object != genpoly &&
      (rsInitDone ==> Tables() && Generates())
    }

    ghost predicate Tables()
      requires alphaTo.Length == indexOf.Length == 256
      reads alphaTo, indexOf
    {
      alphaTo[A0] == 0 && indexOf[0] == A0 && (forall k :: 0 <= k < ORDER ==> alphaTo[k] == Power(k, 1)) &&
      (forall a: Byte :: a != 0 ==> indexOf[ToInt(a)] == Log(a))
    }

    ghost predicate Generates()
      requires genpoly.Length == NROOTS + 1
      reads genpoly
    {
      forall j :: 0 <= j <= NROOTS ==>
        Generator(NROOTS)[NROOTS - j] != 0 && genpoly[j] == Log(Generator(NROOTS)[NROOTS - j])
    }

    // Lines 44-52.
    method BuildTables()
      requires Valid() && !rsInitDone
      modifies alphaTo, indexOf
      ensures Valid() && Tables()
    {
      hide Power, Log, Times2, ToInt, Generates;
      indexOf[0] := A0;
      alphaTo[A0] := 0;
      var sr: Byte := 1;
      assert Power(0, 1) == 1 by { PowerStart(); }
      for i := 0 to ORDER
        invariant sr == Power(i, 1)
        invariant alphaTo[A0] == 0 && indexOf[0] == A0
        invariant forall k :: 0 <= k < i ==> alphaTo[k] == Power(k, 1)
        invariant forall k :: 0 <= k < i ==> indexOf[ToInt(Power(k, 1))] == k
      {
        NextPower(i);
        indexOf[ToInt(sr)] := i;
        alphaTo[i] := sr;
        sr := Times2(sr);
      }
      forall a: Byte | a != 0 ensures indexOf[ToInt(a)] == Log(a) {
        assert Power(Log(a), 1) == a;
      }
    }

    // Lines 55-66: the coefficients, lowest power first.
    method BuildGenerator() returns (coefs: array<Byte>)
      requires Valid() && Tables()
      ensures fresh(coefs) && coefs.Length == NROOTS + 1
      ensures forall j :: 0 <= j <= NROOTS ==> coefs[j] == Generator(NROOTS)[NROOTS - j]
    {
      hide Generator, Tables, Generates;
      coefs := new Byte[NROOTS + 1];
      coefs[0] := 1;
      assert Generator(0)[0] == 1 by { GeneratorVanishes(0); }
      for i := 0 to NROOTS
        invariant Valid() && Tables()
        invariant forall j :: 0 <= j <= i ==> coefs[j] == Generator(i)[i - j]
      {
        MultiplyBy(coefs, i);
      }
    }

    ghost predicate Apart(a: array<Byte>)
      reads this
    {
      a != alphaTo && a as object != indexOf && a as object != genpoly
    }

    // One turn of that loop: times X - x^root.  No coefficient is 0, so the
    // test on line 59 always succeeds.
    method MultiplyBy(coefs: array<Byte>, root: nat)
      requires Valid() && Tables() && coefs.Length == NROOTS + 1 && root < NROOTS && Apart(coefs)
      requires forall j :: 0 <= j <= root ==> coefs[j] == Generator(root)[root - j]
      modifies coefs
      ensures forall j :: 0 <= j <= root + 1 ==> coefs[j] == Generator(root + 1)[root + 1 - j]
    {
      hide Generator, Power, Product, Log, Add, ToInt, Generates;
      GeneratorIsFull(root);
      NewCoefficient(root, root + 1);
      coefs[root + 1] := 1;
      var j := root;
      while j > 0
        invariant 0 <= j <= root && Valid() && Tables()
        invariant forall k :: 0 <= k <= j ==> coefs[k] == Generator(root)[root - k]
        invariant forall k :: j < k <= root + 1 ==> coefs[k] == Generator(root + 1)[root + 1 - k]
      {
        NewCoefficient(root, j);
        var t := TimesRoot(coefs[j], root);
        coefs[j] := Add(coefs[j - 1], t);
        j := j - 1;
      }
      NewCoefficient(root, 0);
      coefs[0] := TimesRoot(coefs[0], root);
    }

    method TimesRoot(a: Byte, root: nat) returns (t: Byte)
      requires Valid() && Tables() && a != 0 && root < NROOTS
      ensures t == Product(Power(root, 1), a)
    {
      hide Power, Product, Log, ToInt, Generates;
      LogOf(root);
      ByTables(Power(root, 1), a);
      var m := Mod255(indexOf[ToInt(a)] + root);
      t := alphaTo[m];
    }

    // dab_rs_init.
    method Init()
      requires Valid() && !rsInitDone
      modifies this`rsInitDone, alphaTo, indexOf, genpoly
      ensures Valid() && rsInitDone
    {
      hide Generator, Power, Log, ToInt, Tables;
      BuildTables();
      var coefs := BuildGenerator();
      GeneratorIsFull(NROOTS);
      for i := 0 to NROOTS + 1
        invariant Valid() && Tables()
        invariant forall j :: 0 <= j <= NROOTS ==> coefs[j] == Generator(NROOTS)[NROOTS - j]
        invariant forall j :: 0 <= j < i ==> genpoly[j] == Log(Generator(NROOTS)[NROOTS - j])
      {
        IndexIsLog(coefs[i]);
        genpoly[i] := indexOf[ToInt(coefs[i])];
      }
      rsInitDone := true;
    }

    // dab_rs_encode.
    method Encode(data: seq<Byte>, parity: array<Byte>)
      requires Valid() && Apart(parity) && |data| == NDATA && parity.Length == NROOTS
      modifies this`rsInitDone, alphaTo, indexOf, genpoly, parity
      ensures Valid() && rsInitDone && parity[..] == Parity(data)
      ensures Vanishes(data + parity[..], NROOTS)
    {
      hide Parity, Feed, Generates, Tables, Vanishes;
      if !rsInitDone {
        Init();
      }
      forall j | 0 <= j < NROOTS {
        parity[j] := 0;
      }
      EmptyParity(parity[..]);
      for i := 0 to NDATA
        invariant Valid() && rsInitDone && parity[..] == Parity(data[..i])
      {
        ParityStep(data, i);
        Shift(parity, data[i]);
      }
      assert data[..NDATA] == data;
      EncodesCodeword(data);
    }

    // Lines 81-90: one data byte.
    method Shift(parity: array<Byte>, d: Byte)
      requires Valid() && rsInitDone && Apart(parity) && parity.Length == NROOTS
      modifies parity
      ensures Valid() && parity[..] == Feed(old(parity[..]), d)
    {
      hide Power, Product, Log, Add, ToInt, Generator, Feed;
      ghost var p, f := parity[..], Add(d, parity[0]);
      FeedAt(p, d);
      IndexIsLog(f);
      var feedback := indexOf[ToInt(Add(d, parity[0]))];
      if feedback != A0 {
        for j := 1 to NROOTS
          invariant Valid()
          invariant forall k :: 1 <= k < j ==> parity[k] == Add(p[k], Product(f, Generator(NROOTS)[k]))
          invariant forall k :: k == 0 || j <= k < NROOTS ==> parity[k] == p[k]
        {
          var t := TimesCoefficient(f, feedback, NROOTS - j);
          parity[j] := Add(parity[j], t);
        }
      }
      forall k | 0 <= k < NROOTS - 1 {
        parity[k] := parity[k + 1];
      }
      if feedback != A0 {
        var t := TimesCoefficient(f, feedback, 0);
        parity[NROOTS - 1] := t;
      } else {
        parity[NROOTS - 1] := 0;
      }
    }

    method TimesCoefficient(ghost f: Byte, feedback: nat, j: nat) returns (t: Byte)
      requires Valid() && rsInitDone && j <= NROOTS && f != 0 && feedback == Log(f)
      ensures t == Product(f, Generator(NROOTS)[NROOTS - j])
    {
      hide Power, Product, Log, ToInt, Generator;
      GeneratorIsFull(NROOTS);
      ByTables(f, Generator(NROOTS)[NROOTS - j]);
      var m := Mod255(feedback + genpoly[j]);
      t := alphaTo[m];
    }

    lemma IndexIsLog(a: Byte)
      requires Valid() && Tables()
      ensures indexOf[ToInt(a)] == if a == 0 then A0 else Log(a)
    {
    }
  }

  lemma PowerStart()
    ensures Power(0, 1) == 1
  {
  }

  // The powers met so far do not use the place of the next one.
  lemma NextPower(i: nat)
    requires i < ORDER
    ensures Power(i + 1, 1) == Times2(Power(i, 1)) && ToInt(Power(i, 1)) > 0
    ensures forall k :: 0 <= k < i ==> ToInt(Power(k, 1)) != ToInt(Power(i, 1))
  {
    hide Power, ToInt, Times2;
    PowerUnfolds(i);
    PowerZero(i, 1);
    forall k | 0 <= k < i ensures ToInt(Power(k, 1)) != ToInt(Power(i, 1)) {
      PowersDiffer(k, i);
      ToIntInjective(Power(k, 1), Power(i, 1));
    }
  }

  lemma PowerUnfolds(i: nat)
    ensures Power(i + 1, 1) == Times2(Power(i, 1))
  {
  }

  // The coefficient of X^j after multiplying by X - x^n.
  lemma NewCoefficient(n: nat, j: nat)
    requires n < NROOTS && j <= n + 1
    ensures Generator(n + 1)[n + 1 - j] ==
      if j == 0 then Product(Power(n, 1), Generator(n)[n])
      else if j == n + 1 then 1
      else Add(Generator(n)[n - (j - 1)], Product(Power(n, 1), Generator(n)[n - j]))
  {
    hide Power, Product, Add;
    GeneratorStep(n + 1);
    GeneratorVanishes(n + 1);
    hide Generator;
    AddZero(Product(Power(n, 1), Generator(n)[n]));
  }

  lemma EmptyParity(p: seq<Byte>)
    requires |p| == NROOTS && forall k :: 0 <= k < NROOTS ==> p[k] == 0
    ensures p == Parity([])
  {
  }

  lemma ParityStep(data: seq<Byte>, i: nat)
    requires i < |data|
    ensures Parity(data[..i + 1]) == Feed(Parity(data[..i]), data[i])
  {
    assert data[..i + 1][..i] == data[..i];
  }

  // The register after a byte, place by place.
  lemma FeedAt(p: seq<Byte>, d: Byte)
    requires |p| == NROOTS
    ensures var f, g, q := Add(d, p[0]), Generator(NROOTS), Feed(p, d);
      (forall k :: 0 <= k < NROOTS - 1 ==> q[k] == Add(p[k + 1], Product(f, g[k + 1]))) &&
      q[NROOTS - 1] == Product(f, g[NROOTS]) &&
      (f == 0 ==> q == p[1..] + [0])
  {
    hide Power, Product, Add, Generator;
    var f, g := Add(d, p[0]), Generator(NROOTS);
    AddZero(Product(f, g[NROOTS]));
    if f == 0 {
      forall k | 0 <= k < NROOTS ensures Product(0, g[k + 1]) == 0 && Feed(p, d)[k] == (p[1..] + [0])[k] {
        ZeroProduct(g[k + 1]);
        AddZero((p[1..] + [0])[k]);
      }
    }
  }

  lemma ZeroProduct(a: Byte)
    ensures Product(0, a) == 0
  {
  }
}
