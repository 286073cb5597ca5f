// The field of 256 elements of src-fdkaac/src/dab_rs.c (lines 43-52): bytes are
// polynomials over GF(2) modulo x^8 + x^4 + x^3 + x^2 + 1.
module ByteField {

  type Byte = bv8

  const ORDER := 255

  function Add(a: Byte, b: Byte): Byte {
    a ^ b
  }

  function Double(a: Byte): Byte {
    a << 1
  }

  predicate Top(a: Byte) {
    a & 0x80 != 0
  }

  // One step of the loop that builds the tables: multiplication by x.
  function Times2(a: Byte): Byte {
    (a << 1) ^ (if a & 0x80 != 0 then 0x1d else 0)
  }

  lemma Times2Cases(a: Byte)
    ensures Times2(a) == if Top(a) then Add(Double(a), 0x1d) else Double(a)
  {
  }

  // a times x^k.
  function Power(k: nat, a: Byte): Byte {
    if k == 0 then a else Times2(Power(k - 1, a))
  }

  lemma AddCommutes(a: Byte, b: Byte)
    ensures Add(a, b) == Add(b, a)
  {
  }

  lemma AddAssociates(a: Byte, b: Byte, c: Byte)
    ensures Add(Add(a, b), c) == Add(a, Add(b, c))
  {
  }

  lemma AddZero(a: Byte)
    ensures Add(a, a) == 0 && Add(a, 0) == a && Add(0, a) == a
  {
  }

  lemma AddCancels(a: Byte, b: Byte)
    ensures Add(a, b) == 0 <==> a == b
  {
  }

  lemma AddFour(a: Byte, b: Byte, c: Byte, d: Byte)
    ensures Add(Add(a, b), Add(c, d)) == Add(Add(a, c), Add(b, d))
  {
    hide Add;
    AddAssociates(a, b, Add(c, d));
    AddAssociates(b, c, d);
    AddCommutes(b, c);
    AddAssociates(c, b, d);
    AddAssociates(a, c, Add(b, d));
  }

  lemma DoubleAdds(a: Byte, b: Byte)
    ensures Double(Add(a, b)) == Add(Double(a), Double(b))
  {
  }

  lemma TopAdds(a: Byte, b: Byte)
    ensures Top(Add(a, b)) <==> Top(a) != Top(b)
  {
  }

  lemma Times2Adds(a: Byte, b: Byte)
    ensures Times2(Add(a, b)) == Add(Times2(a), Times2(b))
  {
    Times2Cases(a);
    Times2Cases(b);
    Times2Cases(Add(a, b));
    hide Add, Double, Top, Times2;
    DoubleAdds(a, b);
    TopAdds(a, b);
    var c, d := Double(a), Double(b);
    AddFour(c, 0x1d, d, 0x1d);
    AddZero(0x1d);
    AddZero(Add(c, d));
    AddAssociates(c, d, 0x1d);
    AddAssociates(c, 0x1d, d);
    AddCommutes(0x1d, d);
  }

  lemma Times2Injective(a: Byte, b: Byte)
    ensures Times2(a) == Times2(b) ==> a == b
  {
  }

  lemma Times2Zero()
    ensures Times2(0) == 0
  {
  }

  // ------------------------------------------------------- linear operators

  lemma {:induction false} PowerAdds(k: nat, a: Byte, b: Byte)
    ensures Power(k, Add(a, b)) == Add(Power(k, a), Power(k, b))
  {
    hide Add, Times2;
    if k > 0 {
      PowerAdds(k - 1, a, b);
      Times2Adds(Power(k - 1, a), Power(k - 1, b));
    }
  }

  lemma {:induction false} PowerInjective(k: nat, a: Byte, b: Byte)
    ensures Power(k, a) == Power(k, b) ==> a == b
  {
    hide Times2;
    if k > 0 {
      PowerInjective(k - 1, a, b);
      Times2Injective(Power(k - 1, a), Power(k - 1, b));
    }
  }

  lemma {:induction false} PowerZero(k: nat, a: Byte)
    ensures Power(k, 0) == 0 && (Power(k, a) == 0 ==> a == 0)
  {
    hide Times2;
    Times2Zero();
    if k > 0 {
      PowerZero(k - 1, 0);
    }
    PowerInjective(k, a, 0);
  }

  lemma {:induction false} PowerPlus(k: nat, n: nat, a: Byte)
    ensures Power(k + n, a) == Power(k, Power(n, a))
  {
    hide Times2;
    if k > 0 {
      PowerPlus(k - 1, n, a);
    }
  }

  lemma PowerSwaps(k: nat, n: nat, a: Byte)
    ensures Power(k, Power(n, a)) == Power(n, Power(k, a)) == Power(k + n, a)
  {
    PowerPlus(k, n, a);
    PowerPlus(n, k, a);
  }

  // ------------------------------------------------------ the powers of x

  // Five steps from a lead to b and do not meet 1.
  predicate FiveSteps(a: Byte, b: Byte) {
    var a1 := Times2(a);
    var a2 := Times2(a1);
    var a3 := Times2(a2);
    var a4 := Times2(a3);
    b == Times2(a4) && a1 != 1 && a2 != 1 && a3 != 1 && a4 != 1 && b != 1
  }

  // The powers up to n are not 1, and the last is a.
  ghost predicate Clear(n: nat, a: Byte) {
    Power(n, 1) == a && forall k :: 0 < k <= n ==> Power(k, 1) != 1
  }

  lemma Onward(n: nat, a: Byte, b: Byte)
    requires Clear(n, a) && FiveSteps(a, b)
    ensures Clear(n + 5, b)
  {
    hide Times2;
    assert Power(n + 5, 1) == Times2(Power(n + 4, 1)) && Power(n + 4, 1) == Times2(Power(n + 3, 1));
    assert Power(n + 3, 1) == Times2(Power(n + 2, 1)) && Power(n + 2, 1) == Times2(Power(n + 1, 1));
  }

  lemma Miles0()
    requires Clear(0, 0x01)
    ensures Clear(50, 0x05)
  {
    hide Clear;
    Onward(0, 0x01, 0x20);
    Onward(5, 0x20, 0x74);
    Onward(10, 0x74, 0x26);
    Onward(15, 0x26, 0xb4);
    Onward(20, 0xb4, 0x03);
    Onward(25, 0x03, 0x60);
    Onward(30, 0x60, 0x9c);
    Onward(35, 0x9c, 0x6a);
    Onward(40, 0x6a, 0xc1);
    Onward(45, 0xc1, 0x05);
  }

  lemma Miles1()
    requires Clear(50, 0x05)
    ensures Clear(100, 0x11)
  {
    hide Clear;
    Onward(50, 0x05, 0xa0);
    Onward(55, 0xa0, 0xb9);
    Onward(60, 0xb9, 0xbe);
    Onward(65, 0xbe, 0x5e);
    Onward(70, 0x5e, 0x0f);
    Onward(75, 0x0f, 0xfd);
    Onward(80, 0xfd, 0xd6);
    Onward(85, 0xd6, 0xdf);
    Onward(90, 0xdf, 0xe2);
    Onward(95, 0xe2, 0x11);
  }

  lemma Miles2()
    requires Clear(100, 0x11)
    ensures Clear(150, 0x55)
  {
    hide Clear;
    Onward(100, 0x11, 0x1a);
    Onward(105, 0x1a, 0x67);
    Onward(110, 0x67, 0x7c);
    Onward(115, 0x7c, 0x3b);
    Onward(120, 0x3b, 0x33);
    Onward(125, 0x33, 0x2e);
    Onward(130, 0x2e, 0xa9);
    Onward(135, 0xa9, 0x84);
    Onward(140, 0x84, 0x4d);
    Onward(145, 0x4d, 0x55);
  }

  lemma Miles3()
    requires Clear(150, 0x55)
    ensures Clear(200, 0x1c)
  {
    hide Clear;
    Onward(150, 0x55, 0x72);
    Onward(155, 0x72, 0xe6);
    Onward(160, 0xe6, 0x91);
    Onward(165, 0x91, 0xd7);
    Onward(170, 0xd7, 0xff);
    Onward(175, 0xff, 0x96);
    Onward(180, 0x96, 0x37);
    Onward(185, 0x37, 0xae);
    Onward(190, 0xae, 0x64);
    Onward(195, 0x64, 0x1c);
  }

  lemma Miles4()
    requires Clear(200, 0x1c)
    ensures Clear(250, 0x6c)
  {
    hide Clear;
    Onward(200, 0x1c, 0xa7);
    Onward(205, 0xa7, 0x59);
    Onward(210, 0x59, 0xef);
    Onward(215, 0xef, 0xac);
    Onward(220, 0xac, 0x24);
    Onward(225, 0x24, 0xf4);
    Onward(230, 0xf4, 0xeb);
    Onward(235, 0xeb, 0x2c);
    Onward(240, 0x2c, 0xe9);
    Onward(245, 0xe9, 0x6c);
  }

  // x has order 255.
  lemma FullCircle()
    ensures Power(ORDER, 1) == 1
    ensures forall k :: 0 < k < ORDER ==> Power(k, 1) != 1
  {
    assert Clear(0, 0x01);
    Miles0();
    Miles1();
    Miles2();
    Miles3();
    Miles4();
    LastSteps();
  }

  lemma LastSteps()
    requires Clear(250, 0x6c)
    ensures Clear(254, 0x8e) && Power(255, 1) == 1
  {
    assert Power(251, 1) == 0xd8 && Power(252, 1) == 0xad;
    assert Power(253, 1) == 0x47 && Power(254, 1) == 0x8e;
  }

  // ------------------------------------------------------------- logarithms

  // The first 255 powers differ.
  lemma PowersDiffer(j: nat, k: nat)
    requires j < k < ORDER
    ensures Power(j, 1) != Power(k, 1)
  {
    hide Times2, Power;
    FullCircle();
    PowerPlus(j, k - j, 1);
    PowerInjective(j, 1, Power(k - j, 1));
  }

  function ToInt(a: Byte): (i: int)
    ensures 0 <= i < 256 && (a != 0 ==> i > 0)
  {
    a as int
  }

  lemma ToIntInjective(a: Byte, b: Byte)
    ensures ToInt(a) == ToInt(b) ==> a == b
  {
  }

  ghost function Reached(n: nat): set<int> {
    if n == 0 then {} else Reached(n - 1) + {ToInt(Power(n - 1, 1))}
  }

  lemma {:induction false} ReachedByPowers(n: nat, i: int)
    requires i in Reached(n)
    ensures exists k: nat :: k < n && ToInt(Power(k, 1)) == i
  {
    hide ToInt, Power;
    if i != ToInt(Power(n - 1, 1)) {
      ReachedByPowers(n - 1, i);
    }
  }

  lemma {:induction false} ReachesMany(n: nat)
    requires n <= ORDER
    ensures |Reached(n)| == n && forall i :: i in Reached(n) ==> 0 < i < 256
  {
    hide ToInt, Power;
    if n > 0 {
      ReachesMany(n - 1);
      PowerZero(n - 1, 1);
      var i := ToInt(Power(n - 1, 1));
      if i in Reached(n - 1) {
        ReachedByPowers(n - 1, i);
        var k: nat :| k < n - 1 && ToInt(Power(k, 1)) == i;
        ToIntInjective(Power(k, 1), Power(n - 1, 1));
        PowersDiffer(k, n - 1);
      }
    }
  }

  lemma {:induction false} FewBytes(s: set<int>, n: nat)
    requires forall i :: i in s ==> 0 < i <= n
    ensures |s| <= n
  {
    if n > 0 {
      FewBytes(s - {n}, n - 1);
      if n in s {
        assert s == (s - {n}) + {n};
      } else {
        assert s == s - {n};
      }
    } else {
      assert forall i :: i !in s;
    }
  }

  // Every byte but 0 is a power of x.
  lemma HasLog(a: Byte)
    requires a != 0
    ensures exists k: nat :: k < ORDER && Power(k, 1) == a
  {
    hide ToInt, Power, Reached;
    ReachesMany(ORDER);
    var i := ToInt(a);
    if i !in Reached(ORDER) {
      FewBytes(Reached(ORDER) + {i}, ORDER);
      assert false;
    }
    ReachedByPowers(ORDER, i);
    var k: nat :| k < ORDER && ToInt(Power(k, 1)) == i;
    ToIntInjective(Power(k, 1), a);
  }

  ghost function Log(a: Byte): (k: nat)
    requires a != 0
    ensures k < ORDER && Power(k, 1) == a
  {
    HasLog(a);
    var k: nat :| k < ORDER && Power(k, 1) == a;
    k
  }

  lemma LogOf(k: nat)
    requires k < ORDER
    ensures Power(k, 1) != 0 && Log(Power(k, 1)) == k
  {
    hide Power;
    PowerZero(k, 1);
    var j := Log(Power(k, 1));
    if j < k {
      PowersDiffer(j, k);
    } else if k < j {
      PowersDiffer(k, j);
    }
  }

  // ---------------------------------------------------------------- product

  ghost function Product(f: Byte, a: Byte): Byte {
    if f == 0 then 0 else Power(Log(f), a)
  }

  lemma Periodic(k: nat)
    ensures Power(k + ORDER, 1) == Power(k, 1)
  {
    hide Power;
    FullCircle();
    PowerPlus(k, ORDER, 1);
  }

  // The product by way of the tables: antilog of the sum of the logs.
  lemma ProductByLogs(f: Byte, a: Byte)
    requires f != 0 && a != 0
    ensures Product(f, a) == Power((Log(f) + Log(a)) % ORDER, 1)
  {
    hide Power, Log;
    var j, k := Log(f), Log(a);
    PowerPlus(j, k, 1);
    if j + k >= ORDER {
      Periodic(j + k - ORDER);
    }
  }

  lemma ProductLaws(f: Byte, a: Byte, b: Byte, k: nat)
    ensures Product(f, Add(a, b)) == Add(Product(f, a), Product(f, b))
    ensures Product(f, Power(k, a)) == Power(k, Product(f, a))
    ensures Product(f, Power(k, 1)) == Power(k, f) && Product(f, 0) == 0
  {
    hide Power, Add, Log;
    AddZero(0);
    PowerZero(k, 0);
    if f != 0 {
      PowerAdds(Log(f), a, b);
      PowerSwaps(Log(f), k, a);
      PowerSwaps(Log(f), k, 1);
      PowerZero(Log(f), 0);
    }
  }

  // Different powers of x times a byte other than 0 differ.
  lemma MultiplesDiffer(j: nat, k: nat, a: Byte)
    requires j < ORDER && k < ORDER && j != k && a != 0
    ensures Power(j, a) != Power(k, a)
  {
    hide Power, Log;
    var m := Log(a);
    PowerSwaps(j, m, 1);
    PowerSwaps(k, m, 1);
    PowerInjective(m, Power(j, 1), Power(k, 1));
    if j < k {
      PowersDiffer(j, k);
    } else {
      PowersDiffer(k, j);
    }
  }
}
