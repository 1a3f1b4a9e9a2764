/**
  Rational numbers as pairs of integers that are never reduced, except for printing. Integers are
  unbounded here.
 */
module Rationals {
  import opened Values

  datatype Rational = Rational(numerator: int, denominator: int)

  function Equal(x: Rational, y: Rational): bool {
    x.numerator * y.denominator == y.numerator * x.denominator
  }

  function Add(x: Rational, y: Rational): Rational {
    Rational(x.numerator * y.denominator + y.numerator * x.denominator, x.denominator * y.denominator)
  }

  function Sub(x: Rational, y: Rational): Rational {
    Rational(x.numerator * y.denominator - y.numerator * x.denominator, x.denominator * y.denominator)
  }

  function Mul(x: Rational, y: Rational): Rational {
    Rational(x.numerator * y.numerator, x.denominator * y.denominator)
  }

  function Div(x: Rational, y: Rational): Rational {
    Rational(x.numerator * y.denominator, x.denominator * y.numerator)
  }

  /** The number that a pair stands for. */
  ghost function Number(x: Rational): real
    requires x.denominator != 0
  {
    x.numerator as real / x.denominator as real
  }

  lemma RealProduct(a: int, b: int)
    ensures (a * b) as real == a as real * b as real
    ensures a != 0 && b != 0 ==> a * b != 0
  {
  }

  /** Equality of pairs is equality of the numbers that they stand for. */
  lemma EqualExact(x: Rational, y: Rational)
    requires x.denominator != 0 && y.denominator != 0
    ensures Equal(x, y) <==> Number(x) == Number(y)
  {
    var p, q, b, d := Number(x), Number(y), x.denominator as real, y.denominator as real;
    assert x.numerator as real == p * b && y.numerator as real == q * d;
    RealProduct(x.numerator, y.denominator);
    RealProduct(y.numerator, x.denominator);
    assert (x.numerator * y.denominator) as real == p * (b * d);
    assert (y.numerator * x.denominator) as real == q * (b * d);
    assert b * d != 0.0;
    if p * (b * d) == q * (b * d) {
      assert p == q;
    }
  }

  /** A pair stands for a number when its numerator is that multiple of its denominator. */
  lemma ValueIs(x: Rational, v: real)
    requires x.denominator != 0 && x.numerator as real == v * x.denominator as real
    ensures Number(x) == v
  {
  }

  /** Both numerators over the common denominator. */
  lemma CommonDenominator(x: Rational, y: Rational)
    requires x.denominator != 0 && y.denominator != 0
    ensures x.denominator * y.denominator != 0
    ensures (x.numerator * y.denominator) as real == Number(x) * (x.denominator * y.denominator) as real
    ensures (y.numerator * x.denominator) as real == Number(y) * (x.denominator * y.denominator) as real
  {
    var p, q, b, d := Number(x), Number(y), x.denominator as real, y.denominator as real;
    assert x.numerator as real == p * b && y.numerator as real == q * d;
    RealProduct(x.numerator, y.denominator);
    RealProduct(y.numerator, x.denominator);
    RealProduct(x.denominator, y.denominator);
    assert (p * b) * d == p * (b * d);
    assert (q * d) * b == q * (b * d);
  }

  lemma Distribute(p: real, q: real, d: real)
    ensures p * d + q * d == (p + q) * d
    ensures p * d - q * d == (p - q) * d
  {
  }

  lemma SumExact(x: Rational, y: Rational)
    requires x.denominator != 0 && y.denominator != 0
    ensures Add(x, y).denominator != 0 && Number(Add(x, y)) == Number(x) + Number(y)
    ensures Sub(x, y).denominator != 0 && Number(Sub(x, y)) == Number(x) - Number(y)
  {
    CommonDenominator(x, y);
    Distribute(Number(x), Number(y), (x.denominator * y.denominator) as real);
    ValueIs(Add(x, y), Number(x) + Number(y));
    ValueIs(Sub(x, y), Number(x) - Number(y));
  }

  lemma ProductExact(x: Rational, y: Rational)
    requires x.denominator != 0 && y.denominator != 0
    ensures Mul(x, y).denominator != 0 && Number(Mul(x, y)) == Number(x) * Number(y)
  {
    var p, q, b, d := Number(x), Number(y), x.denominator as real, y.denominator as real;
    assert x.numerator as real == p * b && y.numerator as real == q * d;
    RealProduct(x.numerator, y.numerator);
    RealProduct(x.denominator, y.denominator);
    assert (p * b) * (q * d) == (p * q) * (b * d);
    ValueIs(Mul(x, y), p * q);
  }

  lemma QuotientExact(x: Rational, y: Rational)
    requires x.denominator != 0 && y.denominator != 0 && y.numerator != 0
    ensures Number(y) != 0.0 && Div(x, y).denominator != 0 && Number(Div(x, y)) == Number(x) / Number(y)
  {
    var p, q, b, d := Number(x), Number(y), x.denominator as real, y.denominator as real;
    assert x.numerator as real == p * b && y.numerator as real == q * d;
    assert q != 0.0;
    RealProduct(x.numerator, y.denominator);
    RealProduct(x.denominator, y.numerator);
    var r := p / q;
    assert p == r * q;
    assert ((r * q) * b) * d == r * (b * (q * d));
    ValueIs(Div(x, y), r);
  }

  /** Equality is an equivalence on pairs with a denominator, and all operations respect it. */
  lemma EqualityIsCongruence(x: Rational, x': Rational, y: Rational, y': Rational)
    requires x.denominator != 0 && x'.denominator != 0 && y.denominator != 0 && y'.denominator != 0
    ensures Equal(x, x) && (Equal(x, y) ==> Equal(y, x)) && (Equal(x, y) && Equal(y, y') ==> Equal(x, y'))
    ensures Equal(x, x') && Equal(y, y') ==>
      && Equal(Add(x, y), Add(x', y')) && Equal(Sub(x, y), Sub(x', y')) && Equal(Mul(x, y), Mul(x', y'))
      && (y.numerator != 0 ==> y'.numerator != 0 && Equal(Div(x, y), Div(x', y')))
  {
    EqualExact(x, y);
    EqualExact(y, y');
    EqualExact(x, y');
    if Equal(x, x') && Equal(y, y') {
      EqualExact(x, x');
      SumExact(x, y);
      SumExact(x', y');
      EqualExact(Add(x, y), Add(x', y'));
      EqualExact(Sub(x, y), Sub(x', y'));
      ProductExact(x, y);
      ProductExact(x', y');
      EqualExact(Mul(x, y), Mul(x', y'));
      if y.numerator != 0 {
        QuotientExact(x, y);
        QuotientExact(x', y');
        EqualExact(Div(x, y), Div(x', y'));
      }
    }
  }

  // ---- The greatest common divisor ----

  function Abs(x: int): nat {
    if x < 0 then -x else x
  }

  /** The quotient and the remainder of the implementation language, which round toward zero. */
  function Quot(a: int, b: int): int
    requires b != 0
  {
    var q := Abs(a) / Abs(b);
    if (a < 0) == (b < 0) then q else -q
  }

  function Rem(a: int, b: int): (r: int)
    requires b != 0
    ensures Abs(r) < Abs(b)
  {
    var r := Abs(a) % Abs(b);
    if a < 0 then -r else r
  }

  /** Division with a remainder that has the sign of the dividend. */
  lemma QuotRem(a: int, b: int)
    requires b != 0
    ensures a == b * Quot(a, b) + Rem(a, b)
    ensures (a >= 0 ==> Rem(a, b) >= 0) && (a <= 0 ==> Rem(a, b) <= 0)
  {
    assert Abs(a) == Abs(b) * (Abs(a) / Abs(b)) + Abs(a) % Abs(b);
  }

  function Gcd(a: int, b: int): int
    decreases Abs(b)
  {
    if b == 0 then a else Gcd(b, Rem(a, b))
  }

  method GcdLoop(a: int, b: int) returns (g: int)
    ensures g == Gcd(a, b)
  {
    var x, y := a, b;
    while y != 0
      invariant Gcd(x, y) == Gcd(a, b)
      decreases Abs(y)
    {
      var tmp := y;
      y := Rem(x, y);
      x := tmp;
    }
    return x;
  }

  ghost predicate Divides(d: int, x: int) {
    exists k :: x == d * k
  }

  lemma DividesSum(d: int, x: int, y: int, m: int)
    requires Divides(d, x) && Divides(d, y)
    ensures Divides(d, x * m + y)
  {
    var k :| x == d * k;
    var l :| y == d * l;
    assert x * m + y == d * (k * m + l) by {
      assert (d * k) * m == d * (k * m);
    }
  }

  /** A number and its remainder have the same divisors in common with the modulus. */
  lemma SameDivisors(a: int, b: int, d: int)
    requires b != 0 && Divides(d, b)
    ensures Divides(d, a) <==> Divides(d, Rem(a, b))
  {
    var r, q := Rem(a, b), Quot(a, b);
    QuotRem(a, b);
    if Divides(d, r) {
      DividesSum(d, b, r, q);
    }
    if Divides(d, a) {
      DividesSum(d, b, a, -q);
      assert b * -q == -(b * q);
    }
  }

  /** The result divides both numbers, and every common divisor divides the result. */
  lemma {:induction false} GcdIsGreatest(a: int, b: int, d: int)
    ensures Divides(Gcd(a, b), a) && Divides(Gcd(a, b), b)
    ensures Divides(d, a) && Divides(d, b) ==> Divides(d, Gcd(a, b))
    ensures Gcd(a, b) == 0 <==> a == 0 && b == 0
    decreases Abs(b)
  {
    if b == 0 {
      assert a == a * 1 && b == a * 0;
    } else {
      GcdIsGreatest(b, Rem(a, b), d);
      SameDivisors(a, b, Gcd(a, b));
      if Divides(d, b) { SameDivisors(a, b, d); }
    }
  }

  lemma Cancel(g: int, x: int, y: int)
    requires g != 0 && g * x == g * y
    ensures x == y
  {
    assert g * (x - y) == 0;
  }

  lemma Associate(a: int, b: int, c: int)
    ensures (a * b) * c == a * (b * c) == b * (a * c)
  {
  }

  lemma Negate(k: int, m: int)
    ensures k * -m == -(k * m) == -k * m
  {
  }

  lemma MulGap(y: nat, p: nat, q: nat)
    requires p < q
    ensures y * q >= y * p + y
  {
    assert y * q == y * p + y * (q - p);
    assert y * (q - p) == y + y * (q - p - 1);
  }

  /** Division has only one quotient and remainder. */
  lemma DivisionUnique(x: nat, y: nat, q: nat, r: nat)
    requires y > 0 && x == y * q + r && r < y
    ensures x / y == q && x % y == r
  {
    var q', r' := x / y, x % y;
    assert x == y * q' + r';
    if q < q' { MulGap(y, q, q'); }
    if q' < q { MulGap(y, q', q); }
  }

  lemma ModScales(k: nat, x: nat, y: nat)
    requires k > 0 && y > 0
    ensures k * y > 0 && (k * x) % (k * y) == k * (x % y)
  {
    var q, r := x / y, x % y;
    assert k * x == (k * y) * q + k * r by { assert x == y * q + r; }
    assert k * r < k * y;
    DivisionUnique(k * x, k * y, q, k * r);
  }

  lemma AbsProduct(k: int, x: int)
    ensures Abs(k * x) == Abs(k) * Abs(x)
    ensures k != 0 ==> (k * x < 0 <==> (x < 0 && k > 0) || (x > 0 && k < 0))
    ensures k != 0 && x != 0 ==> k * x != 0
  {
  }

  lemma RemScales(k: int, a: int, b: int)
    requires k != 0 && b != 0
    ensures k * b != 0 && Rem(k * a, k * b) == k * Rem(a, b)
  {
    AbsProduct(k, a);
    AbsProduct(k, b);
    ModScales(Abs(k), Abs(a), Abs(b));
    var m := Abs(a) % Abs(b);
    Negate(k, m);
    if a == 0 { DivisionUnique(0, Abs(b), 0, 0); }
    assert Abs(k) * m == if k < 0 then -(k * m) else k * m;
    assert Rem(k * a, k * b) == if k * a < 0 then -(Abs(k) * m) else Abs(k) * m;
  }

  /** Scaling both arguments, by a positive or a negative factor, scales the result. */
  lemma {:induction false} GcdScales(k: int, a: int, b: int)
    requires k != 0
    ensures Gcd(k * a, k * b) == k * Gcd(a, b)
    decreases Abs(b)
  {
    AbsProduct(k, b);
    if b != 0 {
      RemScales(k, a, b);
      GcdScales(k, b, Rem(a, b));
    }
  }

  // ---- The sign of the divisor ----

  /** The rounds of the loop. */
  function Rounds(a: int, b: int): nat
    decreases Abs(b)
  {
    if b == 0 then 0 else 1 + Rounds(b, Rem(a, b))
  }

  /** The divisor of numbers that are not negative is positive. */
  lemma {:induction false} GcdPositive(a: int, b: int)
    requires a >= 0 && b >= 0 && (a > 0 || b > 0)
    ensures Gcd(a, b) > 0
    decreases Abs(b)
  {
    if b > 0 { GcdPositive(b, Rem(a, b)); }
  }

  /**
    For all other numbers it is that of their absolute values, with the sign of the first number
    after an even number of rounds, and with that of the second one after an odd number.
   */
  lemma {:induction false} GcdSign(a: int, b: int)
    requires a != 0
    ensures Rounds(a, b) == Rounds(Abs(a), Abs(b))
    ensures var negative := if Rounds(a, b) % 2 == 0 then a < 0 else b < 0;
      Gcd(a, b) == if negative then -Gcd(Abs(a), Abs(b)) else Gcd(Abs(a), Abs(b))
    decreases Abs(b)
  {
    if b != 0 {
      assert Abs(Rem(a, b)) == Rem(Abs(a), Abs(b));
      GcdSign(b, Rem(a, b));
    }
  }

  // ---- Printing ----

  /** What is printed: a whole number or a fraction. */
  datatype Text = Whole(n: int) | Fraction(n: int, d: int)

  /** to_str. */
  function ToText(x: Rational): Text
    requires x.denominator != 0
  {
    if x.numerator == 0 then Whole(0)
    else
      var divisor := Gcd(x.numerator, x.denominator);
      GcdIsGreatest(x.numerator, x.denominator, 1);
      var num, denom := Quot(x.numerator, divisor), Quot(x.denominator, divisor);
      if denom == 1 then Whole(num) else Fraction(num, denom)
  }

  /** The rational that a text stands for. */
  function FromText(t: Text): Rational {
    match t
    case Whole(n) => Rational(n, 1)
    case Fraction(n, d) => Rational(n, d)
  }

  lemma QuotOfMultiple(d: int, k: int)
    requires d != 0
    ensures Quot(d * k, d) == k
  {
    AbsProduct(d, k);
    DivisionUnique(Abs(d * k), Abs(d), Abs(k), 0);
    if k == 0 { assert d * k == 0; }
  }

  /** What is printed, with its divisor, makes up the rational. */
  lemma Printed(x: Rational, g: int)
    requires x.numerator != 0 && x.denominator != 0 && g == Gcd(x.numerator, x.denominator)
    ensures var r := FromText(ToText(x));
      g != 0 && r.denominator != 0 && x.numerator == g * r.numerator && x.denominator == g * r.denominator
  {
    GcdIsGreatest(x.numerator, x.denominator, 1);
    var k :| x.numerator == g * k;
    var l :| x.denominator == g * l;
    QuotOfMultiple(g, k);
    QuotOfMultiple(g, l);
  }

  /** Printing keeps the number. */
  lemma ToTextIsExact(x: Rational)
    requires x.denominator != 0
    ensures FromText(ToText(x)).denominator != 0 && Equal(x, FromText(ToText(x)))
  {
    var r := FromText(ToText(x));
    if x.numerator != 0 {
      var g := Gcd(x.numerator, x.denominator);
      Printed(x, g);
      Associate(g, r.numerator, r.denominator);
    }
  }

  lemma DividesOne(d: int)
    requires Divides(d, 1)
    ensures Abs(d) == 1
  {
    var k :| 1 == d * k;
    AbsProduct(d, k);
    if Abs(d) > 1 && Abs(k) > 0 { MulGap(Abs(d), 0, Abs(k)); }
  }

  /** A factor that numbers have in common besides their greatest common divisor is 1 or -1. */
  lemma CommonFactor(a: int, b: int, g: int, p: int, q: int, d: int)
    requires g == Gcd(a, b) && g != 0 && a == g * p && b == g * q
    requires Divides(d, p) && Divides(d, q)
    ensures Abs(d) == 1
  {
    var k :| p == d * k;
    var l :| q == d * l;
    Associate(g, d, k);
    Associate(g, d, l);
    assert Divides(g * d, a) && Divides(g * d, b);
    GcdIsGreatest(a, b, g * d);
    var m :| g == (g * d) * m;
    Associate(g, d, m);
    Cancel(g, 1, d * m);
    DividesOne(d);
  }

  /** Printing reduces to lowest terms. */
  lemma ToTextIsLowest(x: Rational, d: int)
    requires x.denominator != 0
    requires Divides(d, FromText(ToText(x)).numerator) && Divides(d, FromText(ToText(x)).denominator)
    ensures Abs(d) == 1
  {
    var r := FromText(ToText(x));
    if x.numerator != 0 {
      var g := Gcd(x.numerator, x.denominator);
      Printed(x, g);
      CommonFactor(x.numerator, x.denominator, g, r.numerator, r.denominator, d);
    } else {
      DividesOne(d);
    }
  }

  /** A rational that is a whole number is printed as that number. */
  lemma WholePrinted(d: int, n: int)
    requires d != 0
    ensures ToText(Rational(d * n, d)) == Whole(n)
  {
    if n == 0 {
      assert d * n == 0;
    } else {
      AbsProduct(d, n);
      ModScales(Abs(d), Abs(n), 1);
      assert Rem(d * n, d) == 0;
      assert Gcd(d * n, d) == d;
      QuotOfMultiple(d, n);
      QuotOfMultiple(d, 1);
    }
  }

  lemma WholeDivides(x: Rational, n: int)
    requires x.denominator != 0 && ToText(x) == Whole(n)
    ensures x.numerator == x.denominator * n
  {
    ToTextIsExact(x);
  }

  /** Only whole numbers are printed as whole numbers. */
  lemma WholeExact(x: Rational)
    requires x.denominator != 0
    ensures ToText(x).Whole? <==> Divides(x.denominator, x.numerator)
  {
    if Divides(x.denominator, x.numerator) {
      var n :| x.numerator == x.denominator * n;
      WholePrinted(x.denominator, n);
    }
    if ToText(x).Whole? { WholeDivides(x, ToText(x).n); }
  }

  /** The printed denominator has the sign of the denominator times that of the divisor. */
  lemma PrintedSigns(x: Rational)
    requires x.numerator != 0 && x.denominator != 0
    ensures var r, g := FromText(ToText(x)), Gcd(x.numerator, x.denominator);
      && r.numerator != 0 && (r.numerator > 0 <==> (x.numerator > 0 <==> g > 0))
      && r.denominator != 0 && (r.denominator > 0 <==> (x.denominator > 0 <==> g > 0))
  {
    var r, g := FromText(ToText(x)), Gcd(x.numerator, x.denominator);
    Printed(x, g);
    AbsProduct(g, r.numerator);
    AbsProduct(g, r.denominator);
  }

  /**
    A positive rational is printed with positive terms. A negative one is printed with a negative
    numerator exactly when the divisor has the sign of the denominator.
   */
  lemma SignsPrinted(x: Rational)
    requires x.numerator != 0 && x.denominator != 0
    ensures var r, rounds := FromText(ToText(x)), Rounds(x.numerator, x.denominator);
      if x.numerator > 0 <==> x.denominator > 0 then r.numerator > 0 && r.denominator > 0
      else if rounds % 2 == 1 then r.numerator < 0 && r.denominator > 0
      else r.numerator > 0 && r.denominator < 0
  {
    PrintedSigns(x);
    GcdSign(x.numerator, x.denominator);
    GcdPositive(Abs(x.numerator), Abs(x.denominator));
  }

  /** So -2/3 is printed with the sign above the line, and -1/2 with the sign below it. */
  lemma SignMoves()
    ensures ToText(Rational(-2, 3)) == Fraction(-2, 3) && ToText(Rational(-1, 2)) == Fraction(1, -2)
  {
    assert Gcd(-2, 3) == Gcd(3, -2) == Gcd(-2, 1) == Gcd(1, 0) == 1;
    assert Gcd(-1, 2) == Gcd(2, -1) == Gcd(-1, 0) == -1;
  }

  /** Cross-multiplied, two equal rationals have the same greatest common divisor. */
  lemma EqualDivisors(x: Rational, y: Rational)
    requires x.denominator != 0 && y.denominator != 0 && Equal(x, y)
    ensures y.denominator * Gcd(x.numerator, x.denominator) == x.denominator * Gcd(y.numerator, y.denominator)
  {
    GcdScales(y.denominator, x.numerator, x.denominator);
    GcdScales(x.denominator, y.numerator, y.denominator);
    assert y.denominator * x.numerator == x.denominator * y.numerator;
    assert y.denominator * x.denominator == x.denominator * y.denominator;
  }

  /** Two rationals print the same exactly when they are equal, whatever the signs of their denominators. */
  lemma PrintingExact(x: Rational, y: Rational)
    requires x.denominator != 0 && y.denominator != 0
    ensures ToText(x) == ToText(y) <==> Equal(x, y)
  {
    ToTextIsExact(x);
    ToTextIsExact(y);
    var r, t := FromText(ToText(x)), FromText(ToText(y));
    EqualityIsCongruence(x, x, r, y);
    EqualityIsCongruence(y, y, x, x);
    if Equal(x, y) {
      assert x.numerator == 0 <==> y.numerator == 0 by {
        if x.numerator == 0 { Cancel(x.denominator, y.numerator, 0); }
        if y.numerator == 0 { Cancel(y.denominator, x.numerator, 0); }
      }
      if x.numerator != 0 {
        var g, h := Gcd(x.numerator, x.denominator), Gcd(y.numerator, y.denominator);
        Printed(x, g);
        Printed(y, h);
        EqualDivisors(x, y);
        SameQuotient(x.denominator, y.denominator, g, h, r.denominator, t.denominator);
        SameNumerator(x, y, g, h, r, t);
      }
    }
  }

  lemma SameQuotient(b: int, d: int, g: int, h: int, p: int, q: int)
    requires g != 0 && h != 0 && b == g * p && d == h * q && d * g == b * h
    ensures p == q
  {
    assert (h * q) * g == (g * h) * q && (g * p) * h == (g * h) * p;
    Cancel(g * h, q, p);
  }

  lemma SameNumerator(x: Rational, y: Rational, g: int, h: int, r: Rational, t: Rational)
    requires g != 0 && h != 0 && Equal(x, y) && r.denominator == t.denominator && r.denominator != 0
    requires x.numerator == g * r.numerator && x.denominator == g * r.denominator
    requires y.numerator == h * t.numerator && y.denominator == h * t.denominator
    ensures r.numerator == t.numerator
  {
    var e := r.denominator;
    assert (g * r.numerator) * (h * e) == (g * h * e) * r.numerator;
    assert (h * t.numerator) * (g * e) == (g * h * e) * t.numerator;
    assert g * h != 0 && g * h * e != 0;
    Cancel(g * h * e, r.numerator, t.numerator);
  }
}
