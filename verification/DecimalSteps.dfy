/** Price and size steps as decimals (`build_step`, `build_step_from_decimals`, `count_decimals`), exact: a
  * decimal is an integer coefficient times a power of ten.
  */
module DecimalSteps {
  import opened Wrappers

  datatype Decimal = Decimal(coefficient: int, exponent: int)

  function Value(d: Decimal): real
    decreases if d.exponent < 0 then -d.exponent else d.exponent
  {
    if d.exponent == 0 then d.coefficient as real
    else if d.exponent > 0 then 10.0 * Value(d.(exponent := d.exponent - 1))
    else Value(d.(exponent := d.exponent + 1)) / 10.0
  }

  function PowerOfTen(e: int): Decimal {
    Decimal(1, e)
  }

  /** `Decimal.normalize`: trailing zeros go to the exponent, and zero has exponent 0. */
  function Normalize(d: Decimal): Decimal
    decreases if d.coefficient < 0 then -d.coefficient else d.coefficient
  {
    if d.coefficient == 0 then Decimal(0, 0)
    else if d.coefficient % 10 == 0 then Normalize(Decimal(d.coefficient / 10, d.exponent + 1))
    else d
  }

  function CountDecimals(d: Decimal): nat {
    var e := Normalize(d).exponent;
    if e < 0 then -e else 0
  }

  function Times(a: Decimal, b: Decimal): Decimal {
    Decimal(a.coefficient * b.coefficient, a.exponent + b.exponent)
  }

  function Product(parts: seq<Decimal>): Decimal {
    if parts == [] then Decimal(1, 0) else Times(Product(parts[..|parts| - 1]), parts[|parts| - 1])
  }

  /** A part that is no number, or a product that is not positive, gives no step. */
  method BuildStep(parts: seq<Option<Decimal>>) returns (step: Option<Decimal>)
    ensures step.None? <==> None in parts || ValueProduct(Numbers(parts)) <= 0.0
    ensures step.Some? ==> step.value == Product(Numbers(parts)) && Value(step.value) == ValueProduct(Numbers(parts))
    ensures None !in parts ==>
              |Numbers(parts)| == |parts| && forall i :: 0 <= i < |parts| ==> parts[i] == Some(Numbers(parts)[i])
  {
    if None !in parts { NumbersAreTheParts(parts); }
    var product := Decimal(1, 0);
    for i := 0 to |parts|
      invariant None !in parts[..i] && product == Product(Numbers(parts[..i]))
    {
      assert parts[..i + 1][..i] == parts[..i];
      if parts[i].None? {
        return None;
      }
      product := Times(product, parts[i].value);
    }
    assert parts[..|parts|] == parts;
    ProductMultiplies(Numbers(parts));
    SignOfValue(product);
    step := if product.coefficient <= 0 then None else Some(product);
  }

  /** The parts that are numbers. */
  function Numbers(parts: seq<Option<Decimal>>): seq<Decimal> {
    if parts == [] then []
    else
      var before, last := Numbers(parts[..|parts| - 1]), parts[|parts| - 1];
      if last.Some? then before + [last.value] else before
  }

  /** When every part is a number, they are all there, in order. */
  lemma {:induction false} NumbersAreTheParts(parts: seq<Option<Decimal>>)
    requires None !in parts
    ensures |Numbers(parts)| == |parts| && forall i :: 0 <= i < |parts| ==> parts[i] == Some(Numbers(parts)[i])
  {
    if parts != [] {
      NumbersAreTheParts(parts[..|parts| - 1]);
      assert parts[|parts| - 1] in parts;
    }
  }

  /** `1e-n` */
  function StepFromDecimals(n: int): Decimal {
    Decimal(1, -n)
  }

  // ----- Values ------------------------------------------------------------------------------------------------

  lemma ExponentUp(d: Decimal)
    ensures Value(d.(exponent := d.exponent + 1)) == 10.0 * Value(d)
  {
  }

  lemma {:induction false} TenTimesCoefficient(c: int, e: int)
    ensures Value(Decimal(10 * c, e)) == 10.0 * Value(Decimal(c, e))
    decreases if e < 0 then -e else e
  {
    if e > 0 {
      TenTimesCoefficient(c, e - 1);
    } else if e < 0 {
      TenTimesCoefficient(c, e + 1);
    }
  }

  lemma {:induction false} NormalizeKeepsValue(d: Decimal)
    ensures Value(Normalize(d)) == Value(d)
    ensures Normalize(d).coefficient % 10 != 0 || Normalize(d) == Decimal(0, 0)
    decreases if d.coefficient < 0 then -d.coefficient else d.coefficient
  {
    if d.coefficient == 0 {
      ZeroIsZero(d.exponent);
    } else if d.coefficient % 10 == 0 {
      var c := d.coefficient / 10;
      NormalizeKeepsValue(Decimal(c, d.exponent + 1));
      TenTimesCoefficient(c, d.exponent);
      ExponentUp(Decimal(c, d.exponent));
    }
  }

  lemma {:induction false} ZeroIsZero(e: int)
    ensures Value(Decimal(0, e)) == 0.0
    decreases if e < 0 then -e else e
  {
    if e != 0 {
      ZeroIsZero(if e < 0 then e + 1 else e - 1);
    }
  }

  lemma {:induction false} SignOfValue(d: Decimal)
    ensures Value(d) <= 0.0 <==> d.coefficient <= 0
    decreases if d.exponent < 0 then -d.exponent else d.exponent
  {
    if d.exponent != 0 {
      SignOfValue(d.(exponent := if d.exponent < 0 then d.exponent + 1 else d.exponent - 1));
    }
  }

  function Up(d: Decimal): Decimal {
    d.(exponent := d.exponent + 1)
  }

  lemma TenOut(x: real, tenX: real, y: real)
    requires tenX == 10.0 * x
    ensures tenX * y == 10.0 * (x * y)
  {
  }

  lemma TimesUp(a: Decimal, b: Decimal, x: real, tenX: real, y: real)
    requires tenX == 10.0 * x
    ensures Value(Times(a, b)) == x * y <==> Value(Times(Up(a), b)) == tenX * y
  {
    ExponentUp(Times(a, b));
    TenOut(x, tenX, y);
  }

  lemma ValueOfInteger(d: Decimal, c: real)
    requires d.exponent == 0 && c == d.coefficient as real
    ensures Value(d) == c
  {
  }

  lemma CastMultiplies(c: int, d: int, x: real, y: real)
    requires x == c as real && y == d as real
    ensures (c * d) as real == x * y
  {
  }

  lemma IntegersMultiply(a: Decimal, b: Decimal, x: real, y: real)
    requires a.exponent == 0 && b.exponent == 0 && x == Value(a) && y == Value(b)
    ensures Value(Times(a, b)) == x * y
  {
    ValueOfInteger(a, x);
    ValueOfInteger(b, y);
    CastMultiplies(a.coefficient, b.coefficient, x, y);
    ValueOfInteger(Times(a, b), x * y);
  }

  lemma Commute(a: Decimal, b: Decimal, x: real, y: real)
    ensures Times(a, b) == Times(b, a) && x * y == y * x
  {
  }

  function Size(d: Decimal): nat {
    if d.exponent < 0 then -d.exponent else d.exponent
  }

  lemma TimesNegative(a: Decimal, b: Decimal, x: real, y: real)
    requires a.exponent < 0 && x == Value(a) && y == Value(b)
    ensures Value(Times(a, b)) == x * y
    decreases Size(a) + Size(b), false, 0
  {
    var tenX := 10.0 * x;
    TimesMultiplies(Up(a), b, tenX, y);
    TimesUp(a, b, x, tenX, y);
  }

  lemma TimesPositive(a: Decimal, b: Decimal, x: real, y: real)
    requires a.exponent > 0 && x == Value(a) && y == Value(b)
    ensures Value(Times(a, b)) == x * y
    decreases Size(a) + Size(b), false, 0
  {
    var less := a.(exponent := a.exponent - 1);
    var w := Value(less);
    TimesMultiplies(less, b, w, y);
    TimesUp(less, b, w, x, y);
  }

  /** The product of decimals multiplies their values. */
  lemma {:induction false} TimesMultiplies(a: Decimal, b: Decimal, x: real, y: real)
    requires x == Value(a) && y == Value(b)
    ensures Value(Times(a, b)) == x * y
    decreases Size(a) + Size(b), a.exponent == 0, 1
  {
    if a.exponent < 0 {
      TimesNegative(a, b, x, y);
    } else if a.exponent > 0 {
      TimesPositive(a, b, x, y);
    } else if b.exponent != 0 {
      TimesMultiplies(b, a, y, x);
      Commute(a, b, x, y);
    } else {
      IntegersMultiply(a, b, x, y);
    }
  }

  // ----- count_decimals is the least number of places ----------------------------------------------------------

  predicate IsWhole(x: real) {
    x.Floor as real == x
  }

  lemma {:induction false} NonNegativeExponentIsWhole(d: Decimal)
    requires d.exponent >= 0
    ensures IsWhole(Value(d))
    decreases d.exponent
  {
    if d.exponent > 0 {
      var less := d.(exponent := d.exponent - 1);
      NonNegativeExponentIsWhole(less);
      IntegerIsWhole(Value(d), 10 * Value(less).Floor);
    } else {
      IntegerIsWhole(Value(d), d.coefficient);
    }
  }

  lemma IntegerIsWhole(x: real, n: int)
    requires x == n as real
    ensures IsWhole(x)
  {
  }

  /** A whole value with a negative exponent has a trailing zero to spare. */
  lemma {:induction false} WholeHasTrailingZero(d: Decimal)
    requires d.exponent < 0 && IsWhole(Value(d))
    ensures d.coefficient % 10 == 0
    decreases -d.exponent
  {
    var more := d.(exponent := d.exponent + 1);
    var n := Value(d).Floor;
    ExponentUp(d);
    if more.exponent == 0 {
      assert d.coefficient == 10 * n;
    } else {
      IntegerIsWhole(Value(more), 10 * n);
      WholeHasTrailingZero(more);
    }
  }

  lemma SameUnits(d: Decimal, k: nat)
    ensures Value(Times(Normalize(d), PowerOfTen(k))) == Value(Times(d, PowerOfTen(k)))
  {
    var x, y := Value(d), Value(PowerOfTen(k));
    NormalizeKeepsValue(d);
    TimesMultiplies(d, PowerOfTen(k), x, y);
    TimesMultiplies(Normalize(d), PowerOfTen(k), x, y);
  }

  /** `count_decimals` is the least number of places at which the value is a whole number of units:
    * `TimesMultiplies` says that the product is the value times `10^k`.
    */
  lemma CountIsLeast(d: Decimal, k: nat)
    ensures k >= CountDecimals(d) <==> IsWhole(Value(Times(d, PowerOfTen(k))))
  {
    var n := Times(Normalize(d), PowerOfTen(k));
    SameUnits(d, k);
    NormalizeKeepsValue(d);
    if n.exponent >= 0 {
      NonNegativeExponentIsWhole(n);
    } else if IsWhole(Value(n)) {
      WholeHasTrailingZero(n);
    }
  }

  // ----- Steps ---------------------------------------------------------------------------------------------------

  function TotalDecimals(parts: seq<Decimal>): nat {
    if parts == [] then 0 else TotalDecimals(parts[..|parts| - 1]) + CountDecimals(parts[|parts| - 1])
  }

  lemma WholeTimesWhole(x: real, y: real)
    requires IsWhole(x) && IsWhole(y)
    ensures IsWhole(x * y)
  {
    assert x * y == (x.Floor * y.Floor) as real;
    IntegerIsWhole(x * y, x.Floor * y.Floor);
  }

  lemma TimesKeepsWhole(a: Decimal, b: Decimal)
    requires IsWhole(Value(a)) && IsWhole(Value(b))
    ensures IsWhole(Value(Times(a, b)))
  {
    var x, y := Value(a), Value(b);
    TimesMultiplies(a, b, x, y);
    WholeTimesWhole(x, y);
  }

  lemma PlacesAdd(a: Decimal, b: Decimal, j: nat, k: nat)
    requires CountDecimals(a) <= j && CountDecimals(b) <= k
    ensures CountDecimals(Times(a, b)) <= j + k
  {
    var x, y := Times(a, PowerOfTen(j)), Times(b, PowerOfTen(k));
    CountIsLeast(a, j);
    CountIsLeast(b, k);
    TimesKeepsWhole(x, y);
    assert Times(Times(a, b), PowerOfTen(j + k)) == Times(x, y);
    CountIsLeast(Times(a, b), j + k);
  }

  /** A product never needs more places than its factors together. */
  lemma {:induction false} StepNeedsNoMorePlaces(parts: seq<Decimal>)
    ensures CountDecimals(Product(parts)) <= TotalDecimals(parts)
  {
    if parts != [] {
      var n := |parts| - 1;
      StepNeedsNoMorePlaces(parts[..n]);
      PlacesAdd(Product(parts[..n]), parts[n], TotalDecimals(parts[..n]), CountDecimals(parts[n]));
    }
  }

  // ----- The step for a number of decimals --------------------------------------------------------------------------

  function RealTimes(x: real, y: real): real {
    x * y
  }

  /** The product of the values. */
  function ValueProduct(parts: seq<Decimal>): real {
    if parts == [] then 1.0 else RealTimes(ValueProduct(parts[..|parts| - 1]), Value(parts[|parts| - 1]))
  }

  lemma PartMultiplies(a: Decimal, b: Decimal, x: real, y: real)
    requires x == Value(a) && y == Value(b)
    ensures Value(Times(a, b)) == RealTimes(x, y)
  {
    var v := Value(Times(a, b));
    TimesMultiplies(a, b, x, y);
    IsRealTimes(v, x, y);
  }

  lemma IsRealTimes(v: real, x: real, y: real)
    requires v == x * y
    ensures v == RealTimes(x, y)
  {
  }

  /** The value of a step is the product of the values of its parts. */
  lemma {:induction false} ProductMultiplies(parts: seq<Decimal>)
    ensures Value(Product(parts)) == ValueProduct(parts)
  {
    if parts != [] {
      var front, last := parts[..|parts| - 1], parts[|parts| - 1];
      ProductMultiplies(front);
      PartMultiplies(Product(front), last, ValueProduct(front), Value(last));
    }
  }

  lemma ProductOfOne(d: Decimal)
    ensures Product([d]) == d
  {
    assert [d][..0] == [];
    assert Product([d]) == Times(Product([]), d);
  }

  /** Counting the places of the step for `n` decimals gives `n` back, or 0 for a step above one, and `10^n`
    * such steps make one.
    */
  lemma DecimalsRoundTrip(n: int, step: real, count: real)
    requires step == Value(Product([StepFromDecimals(n)])) && count == Value(PowerOfTen(n))
    ensures CountDecimals(Product([StepFromDecimals(n)])) == (if n > 0 then n else 0)
    ensures step * count == 1.0
  {
    ProductOfOne(StepFromDecimals(n));
    TimesMultiplies(StepFromDecimals(n), PowerOfTen(n), step, count);
  }

  lemma NumbersOfOne(d: Decimal)
    ensures Numbers([Some(d)]) == [d]
  {
    assert [Some(d)][..0] == [];
    assert Numbers([Some(d)]) == Numbers([]) + [d];
  }

  /** `build_step_from_decimals`: for any number of decimals there is a step, and counting its places gives that
    * number back, or 0 for a step above one.
    */
  method BuildStepFromDecimals(decimals: Option<int>) returns (step: Option<Decimal>)
    ensures step.None? <==> decimals.None?
    ensures decimals.Some? ==> step == Some(Product([StepFromDecimals(decimals.value)]))
    ensures decimals.Some? ==> CountDecimals(step.value) == if decimals.value > 0 then decimals.value else 0
  {
    if decimals.None? {
      return None;
    }
    var d := StepFromDecimals(decimals.value);
    NumbersOfOne(d);
    ProductOfOne(d);
    step := BuildStep([Some(d)]);
    ProductMultiplies([d]);
    SignOfValue(d);
    DecimalsRoundTrip(decimals.value, Value(d), Value(PowerOfTen(decimals.value)));
  }
}
