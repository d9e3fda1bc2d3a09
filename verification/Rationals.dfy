/** Rational arithmetic: Euclid's algorithm on truncated remainders, normal forms, and the
    laws of the numbers they stand for. */
module Rationals {
  import opened Arithmetic

  datatype Rat = Rat(num: int, den: int)

  const UNDEFINED := Rat(0, 0)
  const ZERO := Rat(0, 1)
  const INFINITY := Rat(1, 0)
  const MINUS_INFINITY := Rat(-1, 0)

  // ----- greatest common divisor -----

  function Gcd(a: nat, b: nat): (g: nat)
    ensures a > 0 || b > 0 ==> g > 0
    decreases b
  {
    if b == 0 then a else Gcd(b, a % b)
  }

  ghost predicate Divides(k: int, n: int) { exists q: int :: n == q * k }

  lemma {:induction false} DividesBy(k: int, n: int, q: int)
    requires n == q * k
    ensures Divides(k, n)
  {}

  lemma {:induction false} GcdDivides(a: nat, b: nat)
    ensures Divides(Gcd(a, b), a) && Divides(Gcd(a, b), b)
    decreases b
  {
    var g := Gcd(a, b);
    if b == 0 {
      DividesBy(g, a, 1);
      DividesBy(g, b, 0);
    } else {
      GcdDivides(b, a % b);
      var x :| b == x * g;
      var y :| a % b == y * g;
      var q := a / b;
      assert a == q * b + a % b;
      Factor(q, x, g, y);
      DividesBy(g, a, q * x + y);
    }
  }

  /** Bezout */
  lemma {:induction false} Combination(a: nat, b: nat) returns (x: int, y: int)
    ensures x * a + y * b == Gcd(a, b)
    decreases b
  {
    if b == 0 {
      x, y := 1, 0;
    } else {
      var x1, y1 := Combination(b, a % b);
      var q := a / b;
      assert a % b == a - q * b;
      x, y := y1, x1 - y1 * q;
      assert x1 * b + y1 * (a - q * b) == y1 * a + (x1 - y1 * q) * b;
    }
  }

  // Steps of nonlinear arithmetic
  lemma {:induction false} Distribute(a: int, b: int, c: int)
    ensures (a + b) * c == a * c + b * c
  {}

  lemma {:induction false} Regroup(a: int, b: int, c: int)
    ensures a * b * c == a * (b * c) && b * c == c * b
  {}

  lemma {:induction false} Factor(q: int, x: int, g: int, y: int)
    ensures q * (x * g) + y * g == (q * x + y) * g
  {}

  /** Euclid's lemma: what divides a product and shares no factor with one divides the other. */
  lemma {:induction false} CoprimeDivides(d: nat, n: nat, m: int)
    requires Gcd(n, d) == 1 && Divides(d, n * m)
    ensures Divides(d, m)
  {
    var x, y := Combination(n, d);
    var q :| n * m == q * d;
    Distribute(x * n, y * d, m);
    Regroup(x, n, m);
    Regroup(y, m, d);
    Regroup(y, d, m);
    Factor(x, q, d, y * m);
    DividesBy(d, m, x * q + y * m);
  }

  lemma {:induction false} DividesEachOther(a: nat, b: nat)
    requires a > 0 && b > 0 && Divides(a, b) && Divides(b, a)
    ensures a == b
  {
    var x :| b == x * a;
    var y :| a == y * b;
    AtLeast(x, a, b);
    AtLeast(y, b, a);
  }

  lemma {:induction false} AtLeast(x: int, a: nat, b: nat)
    requires a > 0 && b > 0 && b == x * a
    ensures b >= a
  {
    if x <= 0 { NotPositive(x, a); }
  }

  lemma {:induction false} NotPositive(x: int, a: nat)
    requires x <= 0
    ensures x * a <= 0
  {}

  // ----- normal forms -----

  predicate Finite(r: Rat) { r.den > 0 }

  /** In lowest terms with a positive denominator, or one of the three special pairs. */
  predicate Canonical(r: Rat) {
    if r.den == 0 then r.num == -1 || r.num == 0 || r.num == 1
    else r.den > 0 && Gcd(Abs(r.num), r.den) == 1
  }

  /** What `rnormalize` promises: the sign of the value, both parts divided by their greatest
      common divisor. */
  function Normal(n: int, d: int): Rat {
    if d == 0 then Rat(Sign(n), 0)
    else if n == 0 then ZERO
    else
      var g := Gcd(Abs(n), Abs(d));
      Rat(Sign(n) * Sign(d) * (Abs(n) / g), Abs(d) / g)
  }

  lemma {:induction false} Quotient(n: nat, g: nat)
    requires g > 0 && Divides(g, n)
    ensures n == n / g * g && (n > 0 ==> n / g > 0)
  {
    var q :| n == q * g;
    var k := q - n / g;
    assert n == n / g * g + n % g;
    assert k * g == q * g - n / g * g;
    SmallMultiple(k, g);
    if n > 0 && q <= 0 { NotPositive(q, g); }
  }

  lemma {:induction false} SmallMultiple(k: int, g: nat)
    requires 0 <= k * g < g
    ensures k == 0
  {
    if k > 0 { AtLeast(k, g, k * g); } else { assert k < 0 ==> k * g < 0; }
  }

  /** Dividing by the greatest common divisor leaves no common factor. */
  lemma {:induction false} LowestTerms(a: nat, b: nat)
    requires a > 0 && b > 0
    ensures var g := Gcd(a, b); Gcd(a / g, b / g) == 1
  {
    var g := Gcd(a, b);
    GcdDivides(a, b);
    Quotient(a, g);
    Quotient(b, g);
    var x, y := Combination(a, b);
    var p, q := a / g, b / g;
    assert x * (p * g) + y * (q * g) == (x * p + y * q) * g;
    CancelFactor(x * p + y * q, g);
    UnitGcd(p, q, x, y);
  }

  lemma {:induction false} CancelFactor(k: int, g: nat)
    requires g > 0 && k * g == g
    ensures k == 1
  {
    assert (k - 1) * g == 0;
  }

  lemma {:induction false} UnitGcd(p: nat, q: nat, x: int, y: int)
    requires x * p + y * q == 1
    ensures Gcd(p, q) == 1
  {
    var h := Gcd(p, q);
    GcdDivides(p, q);
    var i :| p == i * h;
    var j :| q == j * h;
    assert x * (i * h) + y * (j * h) == (x * i + y * j) * h;
    DividesBy(h, 1, x * i + y * j);
    DividesBy(1, h, h);
    assert p > 0 || q > 0;
    DividesEachOther(h, 1);
  }

  /** The number a finite rational stands for. */
  ghost function Val(r: Rat): real
    requires r.den != 0
  {
    r.num as real / r.den as real
  }

  lemma {:induction false} ProductReal(a: int, b: int)
    ensures (a * b) as real == a as real * b as real
    decreases Abs(a)
  {
    if a > 0 {
      ProductReal(a - 1, b);
      assert a * b == (a - 1) * b + b;
      assert a as real * b as real == (a - 1) as real * b as real + b as real;
    } else if a < 0 {
      ProductReal(a + 1, b);
      assert a * b == (a + 1) * b - b;
      assert a as real * b as real == (a + 1) as real * b as real - b as real;
    }
  }

  /** Quotients are equal exactly when the cross products are. */
  lemma {:induction false} CrossEqual(n: int, d: int, m: int, e: int)
    requires d != 0 && e != 0
    ensures n as real / d as real == m as real / e as real <==> n * e == m * d
  {
    ProductReal(n, e);
    ProductReal(m, d);
    CrossReal(n as real, d as real, m as real, e as real);
  }

  lemma {:induction false} CrossReal(n: real, d: real, m: real, e: real)
    requires d != 0.0 && e != 0.0
    ensures n / d == m / e <==> n * e == m * d
  {
    var x, y := n / d, m / e;
    assert x * d == n && y * e == m;
    if x == y { assert n * e == x * d * e && m * d == x * e * d; }
    if n * e == m * d {
      assert (x - y) * (d * e) == 0.0;
      assert d * e != 0.0;
    }
  }

  /** Main theorem about `rnormalize`: the result is canonical; a nonzero denominator gives
      the finite rational of equal value, a zero one infinity, minus infinity or undefined by
      the sign of the numerator. */
  lemma {:induction false} NormalForm(n: int, d: int)
    ensures Canonical(Normal(n, d))
    ensures d != 0 ==> Finite(Normal(n, d)) && Val(Normal(n, d)) == n as real / d as real
    ensures d == 0 ==> Normal(n, d) == if n > 0 then INFINITY else if n < 0 then MINUS_INFINITY else UNDEFINED
  {
    if d != 0 && n != 0 {
      var g := Gcd(Abs(n), Abs(d));
      GcdDivides(Abs(n), Abs(d));
      Quotient(Abs(n), g);
      Quotient(Abs(d), g);
      LowestTerms(Abs(n), Abs(d));
      SignedCross(n, d, Abs(n) / g, Abs(d) / g, g);
      CrossEqual(Normal(n, d).num, Normal(n, d).den, n, d);
      assert Abs(Normal(n, d).num) == Abs(n) / g by { SignedAbs(Sign(n), Sign(d), Abs(n) / g); }
    }
  }

  lemma {:induction false} SignedAbs(s: int, t: int, p: nat)
    requires (s == 1 || s == -1) && (t == 1 || t == -1)
    ensures Abs(s * t * p) == p
  {
    assert s * t == 1 || s * t == -1;
  }

  lemma {:induction false} SignedCross(n: int, d: int, p: nat, q: nat, g: nat)
    requires n != 0 && d != 0 && Abs(n) == p * g && Abs(d) == q * g
    ensures Sign(n) * Sign(d) * p * d == n * q
  {
    assert n == Sign(n) * (p * g) && d == Sign(d) * (q * g);
    var s, t := Sign(n), Sign(d);
    assert t * t == 1;
    assert s * t * p * (t * (q * g)) == s * (t * t) * p * (q * g);
    assert s * (p * g) * q == s * p * (q * g);
  }

  /** The canonical form of a number is unique. */
  lemma {:induction false} CanonicalUnique(a: Rat, b: Rat)
    requires Canonical(a) && Canonical(b) && Finite(a) && Finite(b) && Val(a) == Val(b)
    ensures a == b
  {
    CrossEqual(a.num, a.den, b.num, b.den);
    DenominatorDivides(a, b);
    DenominatorDivides(b, a);
    DividesEachOther(a.den, b.den);
    assert (a.num - b.num) * a.den == 0;
  }

  lemma {:induction false} DenominatorDivides(a: Rat, b: Rat)
    requires Canonical(a) && Finite(a) && Finite(b) && a.num * b.den == b.num * a.den
    ensures Divides(a.den, b.den)
  {
    var n := Abs(a.num);
    var q := if a.num < 0 then -b.num else b.num;
    assert n * b.den == q * a.den by { if a.num < 0 { assert (-a.num) * b.den == -(a.num * b.den); } }
    DividesBy(a.den, n * b.den, q);
    CoprimeDivides(a.den, n, b.den);
  }

  lemma {:induction false} NormalOfCanonical(r: Rat)
    requires Canonical(r)
    ensures Normal(r.num, r.den) == r
  {
    if r.den != 0 {
      NormalForm(r.num, r.den);
      CanonicalUnique(Normal(r.num, r.den), r);
    }
  }

  // ----- the loop -----

  /** The signed greatest common divisor that the `mod` loop ends with. */
  function Euclid(a: int, b: int): int
    decreases Abs(b)
  {
    if b == 0 then a else DivMod(a, b); Euclid(b, Mod(a, b))
  }

  lemma {:induction false} EuclidIsGcd(a: int, b: int)
    ensures Abs(Euclid(a, b)) == Gcd(Abs(a), Abs(b))
    decreases Abs(b)
  {
    if b != 0 {
      DivMod(a, b);
      EuclidIsGcd(b, Mod(a, b));
      AbsMod(a, b);
    }
  }

  lemma {:induction false} AbsMod(a: int, b: int)
    requires b != 0
    ensures Abs(Mod(a, b)) == Abs(a) % Abs(b)
  {
    if a == 0 { ZeroMod(Abs(b)); }
    AbsSigned(Sign(a), Abs(a) % Abs(b));
  }

  lemma {:induction false} ZeroMod(b: nat)
    requires b > 0
    ensures 0 % b == 0
  {}

  lemma {:induction false} AbsSigned(s: int, r: nat)
    requires s == 1 || s == -1 || (s == 0 && r == 0)
    ensures Abs(s * r) == r
  {}

  /** `rnormalize` */
  method RNormalize(num: int, den: int) returns (n: int, d: int)
    ensures Rat(n, d) == Normal(num, den)
  {
    if den != 0 {
      if num == 0 { return 0, 1; }
      var a, b := num, den;
      while b != 0
        invariant Euclid(a, b) == Euclid(num, den) && a != 0
        decreases Abs(b)
      {
        DivMod(a, b);
        a, b := b, Mod(a, b);
      }
      EuclidIsGcd(num, den);
      n, d := Div(num, a), Div(den, a);
      if d < 0 { n, d := -n, -d; }
      SignsMeet(num, den, a);
    } else {
      n, d := if num > 0 then 1 else if num < 0 then -1 else 0, 0;
    }
  }

  /** Dividing both parts by the signed divisor and making the denominator positive. */
  lemma {:induction false} SignsMeet(num: int, den: int, g: int)
    requires num != 0 && den != 0 && g != 0 && Abs(g) == Gcd(Abs(num), Abs(den))
    ensures Div(den, g) != 0
    ensures var n, d := Div(num, g), Div(den, g);
            Normal(num, den) == if d < 0 then Rat(-n, -d) else Rat(n, d)
  {
    GcdDivides(Abs(num), Abs(den));
    Quotient(Abs(den), Abs(g));
    var p, q := Abs(num) / Abs(g), Abs(den) / Abs(g);
    var s, t, u := Sign(num), Sign(den), Sign(g);
    assert Div(num, g) == s * u * p && Div(den, g) == t * u * q;
    assert t * u == 1 || t * u == -1;
    if t * u == 1 { assert u == t; } else { assert u == -t; }
  }

  // ----- the words -----

  function Sum(a: Rat, b: Rat): Rat {
    if a.den == b.den then Rat(a.num + b.num, b.den) else Rat(a.num * b.den + b.num * a.den, a.den * b.den)
  }

  function Add(a: Rat, b: Rat): Rat { Normal(Sum(a, b).num, Sum(a, b).den) }
  function Negate(a: Rat): Rat { Rat(-a.num, a.den) }
  function Sub(a: Rat, b: Rat): Rat { Add(a, Negate(b)) }
  function Mul(a: Rat, b: Rat): Rat { Normal(a.num * b.num, a.den * b.den) }
  function Inverse(a: Rat): Rat { Normal(a.den, a.num) }
  function Quot(a: Rat, b: Rat): Rat { Mul(a, Rat(b.den, b.num)) }
  predicate Equal(a: Rat, b: Rat) { a.num == b.num && a.den == b.den }
  predicate Greater(a: Rat, b: Rat) { Sub(a, b).num > 0 }
  predicate Less(a: Rat, b: Rat) { Sub(a, b).num < 0 }

  /** `r+` */
  method RPlus(num1: int, den1: int, num2: int, den2: int) returns (n: int, d: int)
    ensures Rat(n, d) == Add(Rat(num1, den1), Rat(num2, den2))
  {
    if den1 == den2 {
      n, d := num1 + num2, den2;
    } else {
      n, d := num1 * den2 + num2 * den1, den1 * den2;
    }
    n, d := RNormalize(n, d);
  }

  /** `r*` */
  method RTimes(num1: int, den1: int, num2: int, den2: int) returns (n: int, d: int)
    ensures Rat(n, d) == Mul(Rat(num1, den1), Rat(num2, den2))
  {
    n, d := RNormalize(num2 * num1, den1 * den2);
  }

  // ----- what the words compute -----

  lemma {:induction false} SumReal(n: real, d: real, m: real, e: real)
    requires d != 0.0 && e != 0.0
    ensures d * e != 0.0 && n / d + m / e == (n * e + m * d) / (d * e)
  {
    var x, y := n / d, m / e;
    assert x * d == n && y * e == m;
    assert (x + y) * (d * e) == x * d * e + y * e * d;
  }

  /** `r+` adds, and the result is canonical. */
  lemma {:induction false} AddVal(a: Rat, b: Rat)
    requires Finite(a) && Finite(b)
    ensures Canonical(Add(a, b)) && Finite(Add(a, b)) && Val(Add(a, b)) == Val(a) + Val(b)
  {
    var s := Sum(a, b);
    assert s.den > 0 by { if a.den != b.den { PositiveProduct(a.den, b.den); } }
    NormalForm(s.num, s.den);
    SumVal(a, b);
  }

  lemma {:induction false} SumVal(a: Rat, b: Rat)
    requires Finite(a) && Finite(b) && Sum(a, b).den != 0
    ensures Sum(a, b).num as real / Sum(a, b).den as real == Val(a) + Val(b)
  {
    if a.den != b.den {
      ProductReal(a.num, b.den);
      ProductReal(b.num, a.den);
      ProductReal(a.den, b.den);
      SumReal(a.num as real, a.den as real, b.num as real, b.den as real);
    }
  }

  lemma {:induction false} PositiveProduct(x: int, y: int)
    requires x > 0 && y > 0
    ensures x * y > 0
  {}

  lemma {:induction false} NonzeroProduct(x: int, y: int)
    requires x != 0 && y != 0
    ensures x * y != 0
  {}

  lemma {:induction false} ProductOfQuotients(n: real, d: real, m: real, e: real)
    requires d != 0.0 && e != 0.0
    ensures d * e != 0.0 && n / d * (m / e) == n * m / (d * e)
  {
    var x, y := n / d, m / e;
    assert x * d == n && y * e == m;
    assert x * y * (d * e) == x * d * (y * e);
  }

  /** `r*` multiplies; the second operand may be an inverted pair, as in `r/`. */
  lemma {:induction false} MulVal(a: Rat, b: Rat)
    requires a.den != 0 && b.den != 0
    ensures Canonical(Mul(a, b)) && Finite(Mul(a, b)) && Val(Mul(a, b)) == Val(a) * Val(b)
  {
    NonzeroProduct(a.den, b.den);
    NormalForm(a.num * b.num, a.den * b.den);
    ValProduct(a, b);
    hide Normal, Canonical, Val;
  }

  lemma {:induction false} ValProduct(a: Rat, b: Rat)
    requires a.den != 0 && b.den != 0 && a.den * b.den != 0
    ensures (a.num * b.num) as real / (a.den * b.den) as real == Val(a) * Val(b)
  {
    ProductReal(a.num, b.num);
    ProductReal(a.den, b.den);
    ProductOfQuotients(a.num as real, a.den as real, b.num as real, b.den as real);
  }

  lemma {:induction false} NegateVal(a: Rat)
    requires Canonical(a)
    ensures Canonical(Negate(a)) && Negate(a).den == a.den && (Finite(a) ==> Val(Negate(a)) == -Val(a))
  {
    assert Abs(-a.num) == Abs(a.num);
    hide Abs, Gcd;
    if Finite(a) { NegateReal(a.num as real, a.den as real); }
  }

  lemma {:induction false} NegateReal(n: real, d: real)
    requires d != 0.0
    ensures -n / d == -(n / d)
  {
    var x, y := n / d, -n / d;
    assert x * d == n && y * d == -n;
    RealDistribute(x, y, d);
    RealCancel(x + y, d);
  }

  // Steps of nonlinear arithmetic
  lemma {:induction false} RealCancel(x: real, d: real)
    requires x * d == 0.0 && d != 0.0
    ensures x == 0.0
  {}

  lemma {:induction false} RealDistribute(x: real, y: real, d: real)
    ensures (x + y) * d == x * d + y * d
  {}

  lemma {:induction false} RealRegroup(a: real, b: real, c: real)
    ensures a * b * c == b * (a * c)
  {}

  lemma {:induction false} SubVal(a: Rat, b: Rat)
    requires Canonical(b) && Finite(a) && Finite(b)
    ensures Canonical(Sub(a, b)) && Finite(Sub(a, b)) && Val(Sub(a, b)) == Val(a) - Val(b)
  {
    NegateVal(b);
    AddVal(a, Negate(b));
  }

  /** `r/` and `1/r` divide by anything but zero. */
  lemma {:induction false} QuotVal(a: Rat, b: Rat)
    requires Finite(a) && Finite(b) && b.num != 0
    ensures Val(b) != 0.0
    ensures Canonical(Quot(a, b)) && Finite(Quot(a, b)) && Val(Quot(a, b)) == Val(a) / Val(b)
    ensures Canonical(Inverse(b)) && Finite(Inverse(b)) && Val(Inverse(b)) == 1.0 / Val(b)
  {
    var r := Rat(b.den, b.num);
    assert Quot(a, b) == Mul(a, r) && Finite(a) && a.den != 0 && b.den != 0;
    hide *;
    MulVal(a, r);
    InverseVal(b);
    DivideReal(Val(a), Val(b), Val(r));
    DivideReal(1.0, Val(b), Val(r));
  }

  lemma {:induction false} InverseVal(b: Rat)
    requires Finite(b) && b.num != 0
    ensures Val(b) * Val(Rat(b.den, b.num)) == 1.0
    ensures Canonical(Inverse(b)) && Finite(Inverse(b)) && Val(Inverse(b)) == Val(Rat(b.den, b.num))
  {
    NormalForm(b.den, b.num);
    hide Normal, Canonical;
    InverseReal(b.num as real, b.den as real);
  }

  lemma {:induction false} InverseReal(n: real, d: real)
    requires n != 0.0 && d != 0.0
    ensures n / d * (d / n) == 1.0
  {
    var q, r := n / d, d / n;
    assert q * d == n && r * n == d;
    RealRegroup(q, r, d);
    RealDistribute(q * r, -1.0, d);
    RealCancel(q * r - 1.0, d);
  }

  /** Multiplying by the inverse divides. */
  lemma {:induction false} DivideReal(x: real, q: real, r: real)
    requires q * r == 1.0
    ensures q != 0.0 && x * r == x / q
  {
    var y := x / q;
    assert y * q == x;
    RealRegroup(y, q, r);
    RealRegroup(q, y, r);
    assert y * q * r == y * (q * r) by { RealRegroup(q, y, r); }
  }

  /** `?r=`, `?r<` and `?r>` decide equality and order. */
  lemma {:induction false} ComparisonsDecide(a: Rat, b: Rat)
    requires Canonical(a) && Canonical(b) && Finite(a) && Finite(b)
    ensures Equal(a, b) <==> Val(a) == Val(b)
    ensures Less(a, b) <==> Val(a) < Val(b)
    ensures Greater(a, b) <==> Val(a) > Val(b)
  {
    if Val(a) == Val(b) { CanonicalUnique(a, b); }
    SubVal(a, b);
    SignOfVal(Sub(a, b).num as real, Sub(a, b).den as real);
  }

  lemma {:induction false} SignOfVal(n: real, d: real)
    requires d > 0.0
    ensures n / d > 0.0 <==> n > 0.0
    ensures n / d < 0.0 <==> n < 0.0
  {
    var x := n / d;
    assert x * d == n;
  }

  // ----- laws -----

  /** On finite canonical rationals the words form a commutative field. */
  lemma {:induction false} FieldLaws(a: Rat, b: Rat, c: Rat)
    requires Canonical(a) && Canonical(b) && Canonical(c) && Finite(a) && Finite(b) && Finite(c)
    ensures Add(Add(a, b), c) == Add(a, Add(b, c)) && Mul(Mul(a, b), c) == Mul(a, Mul(b, c))
    ensures Add(a, b) == Add(b, a) && Mul(a, b) == Mul(b, a)
    ensures Mul(a, Add(b, c)) == Add(Mul(a, b), Mul(a, c))
    ensures Add(a, ZERO) == a && Mul(a, Rat(1, 1)) == a && Sub(a, a) == ZERO
    ensures a.num != 0 ==> Mul(a, Inverse(a)) == Rat(1, 1)
  {
    SumLaws(a, b, c);
    ProductLaws(a, b, c);
    UnitLaws(a);
    hide *;
  }

  lemma {:induction false} SumLaws(a: Rat, b: Rat, c: Rat)
    requires Finite(a) && Finite(b) && Finite(c)
    ensures Add(Add(a, b), c) == Add(a, Add(b, c)) && Add(a, b) == Add(b, a)
  {
    AddVal(a, b);
    AddVal(b, c);
    AddVal(b, a);
    AddVal(Add(a, b), c);
    AddVal(a, Add(b, c));
    hide Add, Val, Canonical;
    CanonicalUnique(Add(Add(a, b), c), Add(a, Add(b, c)));
    CanonicalUnique(Add(a, b), Add(b, a));
  }

  lemma {:induction false} ProductLaws(a: Rat, b: Rat, c: Rat)
    requires Finite(a) && Finite(b) && Finite(c)
    ensures Mul(Mul(a, b), c) == Mul(a, Mul(b, c)) && Mul(a, b) == Mul(b, a)
    ensures Mul(a, Add(b, c)) == Add(Mul(a, b), Mul(a, c))
  {
    MulAssociates(a, b, c);
    MulDistributes(a, b, c);
    hide Add, Normal;
  }

  lemma {:induction false} MulDistributes(a: Rat, b: Rat, c: Rat)
    requires Finite(a) && Finite(b) && Finite(c)
    ensures Mul(a, Add(b, c)) == Add(Mul(a, b), Mul(a, c))
  {
    hide Add, Mul, Val, Canonical;
    MulVal(a, b);
    AddVal(b, c);
    MulVal(a, Add(b, c));
    MulVal(a, c);
    AddVal(Mul(a, b), Mul(a, c));
    RealLaws(Val(a), Val(b), Val(c));
    CanonicalUnique(Mul(a, Add(b, c)), Add(Mul(a, b), Mul(a, c)));
  }

  lemma {:induction false} MulAssociates(a: Rat, b: Rat, c: Rat)
    requires Finite(a) && Finite(b) && Finite(c)
    ensures Mul(Mul(a, b), c) == Mul(a, Mul(b, c))
  {
    hide Add, Mul, Val, Canonical;
    MulVal(a, b);
    MulVal(b, c);
    MulVal(Mul(a, b), c);
    MulVal(a, Mul(b, c));
    RealLaws(Val(a), Val(b), Val(c));
    CanonicalUnique(Mul(Mul(a, b), c), Mul(a, Mul(b, c)));
  }

  lemma {:induction false} RealLaws(x: real, y: real, z: real)
    ensures x * y * z == x * (y * z) && x * y == y * x && x * (y + z) == x * y + x * z
  {}

  lemma {:induction false} UnitLaws(a: Rat)
    requires Canonical(a) && Finite(a)
    ensures Add(a, ZERO) == a && Mul(a, Rat(1, 1)) == a && Sub(a, a) == ZERO
    ensures a.num != 0 ==> Mul(a, Inverse(a)) == Rat(1, 1)
  {
    AddVal(a, ZERO);
    CanonicalUnique(Add(a, ZERO), a);
    MulVal(a, Rat(1, 1));
    CanonicalUnique(Mul(a, Rat(1, 1)), a);
    SubVal(a, a);
    CanonicalUnique(Sub(a, a), ZERO);
    if a.num != 0 {
      QuotVal(a, a);
      MulVal(a, Inverse(a));
      CanonicalUnique(Mul(a, Inverse(a)), Rat(1, 1));
    }
  }

  // ----- with infinities and undefined -----

  predicate Infinite(r: Rat) { r.den == 0 && r.num != 0 }

  /** A finite operand counts for nothing beside an infinite or undefined one. */
  function Weight(r: Rat): int { if r.den == 0 then r.num else 0 }

  lemma {:induction false} AddSpecial(a: Rat, b: Rat)
    requires Canonical(a) && Canonical(b)
    ensures a.den == 0 || b.den == 0 ==> Add(a, b) == Rat(Sign(Weight(a) + Weight(b)), 0)
    ensures Canonical(Add(a, b))
    ensures Weight(Add(a, b)) == Sign(Weight(a) + Weight(b))
  {
    if a.den > 0 && b.den > 0 {
      AddVal(a, b);
    } else if a.den == b.den {
    } else if a.den == 0 {
      assert Sum(a, b) == Rat(a.num * b.den, 0);
      assert a.num == 1 ==> a.num * b.den == b.den;
      assert a.num == -1 ==> a.num * b.den == -b.den;
    } else {
      assert Sum(a, b) == Rat(b.num * a.den, 0);
      assert b.num == 1 ==> b.num * a.den == a.den;
      assert b.num == -1 ==> b.num * a.den == -a.den;
    }
  }

  /** Over all canonical values `r+` is associative exactly unless all three operands are
      infinite and the outer two have opposite signs: undefined is not absorbing. */
  lemma {:induction false} AddAssociatesIff(a: Rat, b: Rat, c: Rat)
    requires Canonical(a) && Canonical(b) && Canonical(c)
    ensures Add(Add(a, b), c) == Add(a, Add(b, c)) <==> !(Infinite(a) && Infinite(b) && Infinite(c) && a != c)
  {
    hide *;
    InfiniteWeights(a, b, c);
    if Finite(a) && Finite(b) && Finite(c) {
      SumLaws(a, b, c);
    } else {
      SpecialCases(a, b, c);
      WeightLaw(Weight(a), Weight(b), Weight(c));
    }
  }

  /** An instance on which it is not. */
  lemma {:induction false} AddNotAssociative()
    ensures Add(Add(INFINITY, INFINITY), MINUS_INFINITY) == UNDEFINED
    ensures Add(INFINITY, Add(INFINITY, MINUS_INFINITY)) == INFINITY
  {
    assert Add(INFINITY, INFINITY) == INFINITY && Add(INFINITY, MINUS_INFINITY) == UNDEFINED;
  }

  lemma {:induction false} InfiniteWeights(a: Rat, b: Rat, c: Rat)
    requires Canonical(a) && Canonical(b) && Canonical(c)
    ensures -1 <= Weight(a) <= 1 && -1 <= Weight(b) <= 1 && -1 <= Weight(c) <= 1
    ensures Infinite(a) && Infinite(b) && Infinite(c) && a != c <==>
            Weight(a) != 0 && Weight(b) != 0 && Weight(c) != 0 && Weight(a) != Weight(c)
    ensures Finite(a) && Finite(b) && Finite(c) ==> !Infinite(a)
  {
    hide Gcd, Abs;
  }

  lemma {:induction false} SpecialCases(a: Rat, b: Rat, c: Rat)
    requires Canonical(a) && Canonical(b) && Canonical(c) && !(Finite(a) && Finite(b) && Finite(c))
    ensures Add(Add(a, b), c) == Rat(Sign(Sign(Weight(a) + Weight(b)) + Weight(c)), 0)
    ensures Add(a, Add(b, c)) == Rat(Sign(Weight(a) + Sign(Weight(b) + Weight(c))), 0)
  {
    assert a.den == 0 || b.den == 0 || c.den == 0;
    hide *;
    AddSpecial(a, b);
    AddSpecial(b, c);
    AddSpecial(Add(a, b), c);
    AddSpecial(a, Add(b, c));
    SpecialDen(a, b);
    SpecialDen(b, c);
  }

  lemma {:induction false} SpecialDen(a: Rat, b: Rat)
    requires Canonical(a) && Canonical(b)
    ensures Add(a, b).den == 0 <==> a.den == 0 || b.den == 0
  {
    if a.den > 0 && b.den > 0 { AddVal(a, b); } else { AddSpecial(a, b); }
  }

  lemma {:induction false} WeightLaw(x: int, y: int, z: int)
    requires -1 <= x <= 1 && -1 <= y <= 1 && -1 <= z <= 1
    ensures Sign(Sign(x + y) + z) == Sign(x + Sign(y + z)) <==> !(x != 0 && y != 0 && z != 0 && x != z)
  {}
}
