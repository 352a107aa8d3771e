/**
 The arithmetic of the amount rules: half-up rounding to cents, the one-cent tolerance, and how
 far four tolerances in a row can carry an ERP amount from what the invoice's own base implies.
 Decimals are reals; the 28-digit context of the decimal library is not reached.
 */
module Amounts {

  /** ROUND_HALF_UP to a whole number: to the nearest one, a tie away from zero. */
  function HalfUp(x: real): int {
    if x >= 0.0 then (x + 0.5).Floor else -((-x + 0.5).Floor)
  }

  function Cents(amount: real): int {
    HalfUp(amount * 100.0)
  }

  function Abs(x: int): nat {
    if x < 0 then -x else x
  }

  function AbsReal(x: real): real {
    if x < 0.0 then -x else x
  }

  /** One cent of tolerance, between the rounded amounts. */
  predicate Matches(one: real, other: real) {
    Abs(Cents(one) - Cents(other)) <= 1
  }

  /** `quantize(Decimal("0.01"), ROUND_HALF_UP)` */
  function ToCents(amount: real): real {
    Cents(amount) as real / 100.0
  }

  /** The VAT a base and a percentage imply, before rounding. */
  function VatDue(base: real, rate: real): real {
    base * rate / 100.0
  }

  // ----- rounding

  /** The result is a nearest whole number, and of two nearest ones the one farther from zero;
      nothing else is. */
  lemma {:induction false} HalfUpIsNearest(x: real, n: int)
    ensures n == HalfUp(x) <==>
            && AbsReal(x - n as real) <= 0.5
            && (AbsReal(x - n as real) == 0.5 ==> AbsReal(n as real) > AbsReal(x))
  {
    if x >= 0.0 {
      var f := (x + 0.5).Floor;
      assert f as real <= x + 0.5 < f as real + 1.0;
    } else {
      var f := (-x + 0.5).Floor;
      assert f as real <= -x + 0.5 < f as real + 1.0;
    }
  }

  lemma {:induction false} HalfUpOfWhole(n: int)
    ensures HalfUp(n as real) == n
  {
    HalfUpIsNearest(n as real, n);
  }

  // ----- the tolerance

  lemma {:induction false} MatchesSymmetric(one: real, other: real)
    ensures Matches(one, other) <==> Matches(other, one)
  {
  }

  /** When two rounded numbers are `k` apart, the numbers themselves are less than `k + 1` apart:
      both roundings cannot lose their half in opposite directions. */
  lemma {:induction false} RoundedGap(x: real, y: real)
    ensures AbsReal(x - y) < Abs(HalfUp(x) - HalfUp(y)) as real + 1.0
  {
    HalfUpIsNearest(x, HalfUp(x));
    HalfUpIsNearest(y, HalfUp(y));
  }

  /** A match means a true difference strictly under two cents. */
  lemma {:induction false} MatchIsUnderTwoCents(one: real, other: real)
    requires Matches(one, other)
    ensures AbsReal(one - other) < 0.02
  {
    RoundedGap(one * 100.0, other * 100.0);
  }

  /** Amounts at most one cent apart match, but for one pair: half a cent owed against half a cent
      due, which round to opposite cents. */
  lemma {:induction false} OneCentApartMatches(one: real, other: real)
    requires AbsReal(one - other) <= 0.01
    ensures Matches(one, other) <==>
            !((one == 0.005 && other == -0.005) || (one == -0.005 && other == 0.005))
  {
    HalfUpIsNearest(one * 100.0, Cents(one));
    HalfUpIsNearest(other * 100.0, Cents(other));
  }

  lemma {:induction false} ToCentsKeepsCents(amount: real)
    ensures Cents(ToCents(amount)) == Cents(amount)
  {
    HalfUpOfWhole(Cents(amount));
  }

  // ----- four tolerances in a row

  /** What R07, R08, R10 and R14 compare, all amounts being present. */
  ghost predicate Chained(base: real, rate: real, vat: real, total: real, ordered: real, erp: real) {
    && Matches(total, ordered)                            // R07
    && Matches(vat, ToCents(VatDue(base, rate)))         // R08
    && Matches(total, base + vat)                         // R10
    && Matches(erp, ordered)                              // R14
  }

  /** The ERP amount is strictly within six cents of what base and rate imply: the cents of the
      order and of the total cancel along the chain, so their roundings do not add up. */
  lemma {:induction false} ToleranceChain(base: real, rate: real, vat: real, total: real, ordered: real, erp: real)
    requires Chained(base, rate, vat, total, ordered, erp)
    ensures AbsReal(erp - (base + VatDue(base, rate))) < 0.06
  {
    var due := VatDue(base, rate);
    assert Abs(Cents(erp) - Cents(base + vat)) <= 3;
    RoundedGap(erp * 100.0, (base + vat) * 100.0);
    assert AbsReal(erp - (base + vat)) < 0.04;
    ToCentsKeepsCents(due);
    HalfUpIsNearest(vat * 100.0, Cents(vat));
    HalfUpIsNearest(due * 100.0, Cents(due));
    assert AbsReal(vat - due) <= 0.02;
  }

  predicate WholeCents(amount: real) {
    amount * 100.0 == (amount * 100.0).Floor as real
  }

  lemma {:induction false} WholeCentsRoundToThemselves(amount: real)
    requires WholeCents(amount)
    ensures Cents(amount) as real == amount * 100.0
  {
    HalfUpOfWhole((amount * 100.0).Floor);
  }

  /** With every amount in whole cents, within four and a half. */
  lemma {:induction false} ToleranceChainInWholeCents(
    base: real, rate: real, vat: real, total: real, ordered: real, erp: real)
    requires Chained(base, rate, vat, total, ordered, erp)
    requires WholeCents(base) && WholeCents(vat) && WholeCents(total)
    requires WholeCents(ordered) && WholeCents(erp)
    ensures AbsReal(erp - (base + VatDue(base, rate))) <= 0.045
  {
    var due := VatDue(base, rate);
    WholeCentsRoundToThemselves(base);
    WholeCentsRoundToThemselves(vat);
    WholeCentsRoundToThemselves(erp);
    SumOfWholeCents(base, vat);
    ToCentsKeepsCents(due);
    HalfUpIsNearest(due * 100.0, Cents(due));
    hide HalfUp, VatDue, ToCents, WholeCents;
    WholeCentLink(Cents(base), Cents(vat), Cents(due), due, Cents(total), Cents(ordered), Cents(erp));
  }

  lemma {:induction false} SumOfWholeCents(one: real, other: real)
    requires Cents(one) as real == one * 100.0 && Cents(other) as real == other * 100.0
    ensures Cents(one + other) == Cents(one) + Cents(other)
  {
    assert (one + other) * 100.0 == (Cents(one) + Cents(other)) as real;
    HalfUpOfWhole(Cents(one) + Cents(other));
  }

  /** The chain over whole cents, `due` being the exact VAT and `rounded` its cents. */
  lemma {:induction false} WholeCentLink(base: int, vat: int, rounded: int, due: real, total: int, ordered: int, erp: int)
    requires Abs(total - ordered) <= 1 && Abs(erp - ordered) <= 1 && Abs(total - (base + vat)) <= 1
    requires Abs(vat - rounded) <= 1 && AbsReal(due * 100.0 - rounded as real) <= 0.5
    ensures AbsReal(erp as real / 100.0 - (base as real / 100.0 + due)) <= 0.045
  {
    assert Abs(erp - (base + rounded)) <= 4;
    var gap := (erp - (base + rounded)) as real;
    assert -4.0 <= gap <= 4.0;
  }

  /** Neither bound can be lowered: whole-cent amounts reach 4.5 cents... */
  lemma {:induction false} WholeCentBoundIsReached()
    ensures exists base, rate, vat, total, ordered, erp ::
              && Chained(base, rate, vat, total, ordered, erp)
              && WholeCents(base) && WholeCents(vat) && WholeCents(total)
              && WholeCents(ordered) && WholeCents(erp)
              && AbsReal(erp - (base + VatDue(base, rate))) == 0.045
  {
    // 2.5 cents of VAT due round up to 3; then one cent at each of four comparisons.
    var base, rate, vat, total, ordered, erp := 0.25, 10.0, 0.04, 0.30, 0.31, 0.32;
    assert VatDue(base, rate) == 0.025;
    HalfUpIsNearest(2.5, 3);
    HalfUpOfWhole(3);
    HalfUpOfWhole(4);
    HalfUpOfWhole(29);
    HalfUpOfWhole(30);
    HalfUpOfWhole(31);
    HalfUpOfWhole(32);
    assert Chained(base, rate, vat, total, ordered, erp);
    assert WholeCents(base) && WholeCents(vat) && WholeCents(total);
    assert WholeCents(ordered) && WholeCents(erp);
  }

  /** One unit of the last of `places` places. */
  function Ulp(places: nat): real {
    if places == 0 then 1.0 else Ulp(places - 1) / 10.0
  }

  /** A finite decimal with at most `places` places. */
  predicate IsDecimal(amount: real, places: nat)
    decreases places
  {
    if places == 0 then amount == amount.Floor as real else IsDecimal(amount * 10.0, places - 1)
  }

  /** The amounts that come close, one unit of the last place off round ones. */
  lemma {:induction false} CloseToSixCents(ulp: real)
    requires 0.0 < ulp <= 0.001
    ensures Chained(0.25 + ulp, 10.0, 0.045 - ulp, 0.31, 0.32, 0.335 - ulp)
    ensures 0.335 - ulp - (0.25 + ulp + VatDue(0.25 + ulp, 10.0)) == 0.06 - 2.1 * ulp
  {
    // In cents, with s the last place: 2.5 + s / 10 due, expected 3, printed VAT 4.5 - s (cents 4),
    // base + VAT 29.5 (cents 30), total 31, order 32, ERP 33.5 - s (cents 33).
    HalfUpIsNearest(VatDue(0.25 + ulp, 10.0) * 100.0, 3);
    HalfUpOfWhole(3);
    HalfUpIsNearest((0.045 - ulp) * 100.0, 4);
    HalfUpIsNearest((0.25 + ulp + (0.045 - ulp)) * 100.0, 30);
    HalfUpOfWhole(31);
    HalfUpOfWhole(32);
    HalfUpIsNearest((0.335 - ulp) * 100.0, 33);
  }

  lemma {:induction false} SmallUlp(places: nat)
    requires places >= 3
    ensures 0.0 < Ulp(places) <= 0.001
  {
    if places > 3 {
      SmallUlp(places - 1);
    } else {
      assert Ulp(1) == 0.1 && Ulp(2) == 0.01;
    }
  }

  lemma {:induction false} WholeIsDecimal(whole: int)
    ensures IsDecimal(whole as real, 0)
  {
  }

  /** A thousandth or many, give or take a unit of the last place. */
  lemma {:induction false} LastPlace(places: nat, thousandths: int)
    requires places >= 3
    ensures IsDecimal(thousandths as real / 1000.0 + Ulp(places), places)
    ensures IsDecimal(thousandths as real / 1000.0 - Ulp(places), places)
  {
    var part := thousandths as real / 1000.0;
    if places > 3 {
      assert part * 10.0 == (10 * thousandths) as real / 1000.0;
      LastPlace(places - 1, 10 * thousandths);
    } else {
      assert Ulp(1) == 0.1 && Ulp(2) == 0.01 && Ulp(3) == 0.001;
      WholeIsDecimal(thousandths + 1);
      WholeIsDecimal(thousandths - 1);
      assert (part + 0.001) * 10.0 * 10.0 * 10.0 == (thousandths + 1) as real;
      assert (part - 0.001) * 10.0 * 10.0 * 10.0 == (thousandths - 1) as real;
      ThreePlaces(part + 0.001);
      ThreePlaces(part - 0.001);
    }
  }

  lemma {:induction false} ThreePlaces(amount: real)
    requires IsDecimal(amount * 10.0 * 10.0 * 10.0, 0)
    ensures IsDecimal(amount, 3)
  {
    assert IsDecimal(amount * 10.0 * 10.0, 1);
    assert IsDecimal(amount * 10.0, 2);
  }

  /** ...and decimals come within 2.1 units of their last place of six cents. */
  lemma {:induction false} SixCentBoundIsApproached(places: nat)
    requires places >= 3
    ensures var ulp := Ulp(places);
            var base, vat, erp := 0.25 + ulp, 0.045 - ulp, 0.335 - ulp;
            && IsDecimal(base, places) && IsDecimal(vat, places) && IsDecimal(erp, places)
            && Chained(base, 10.0, vat, 0.31, 0.32, erp)
            && erp - (base + VatDue(base, 10.0)) == 0.06 - 2.1 * ulp
  {
    hide Ulp, IsDecimal, Chained, VatDue;
    SmallUlp(places);
    LastPlace(places, 250);
    LastPlace(places, 45);
    LastPlace(places, 335);
    CloseToSixCents(Ulp(places));
  }

  lemma {:induction false} UlpShrinks(places: nat)
    ensures 0.0 < Ulp(places) <= 1.0
    ensures places as real * Ulp(places) <= 1.0
  {
    if places > 0 {
      UlpShrinks(places - 1);
      var ulp := Ulp(places - 1);
      assert (places - 1) as real * ulp + ulp == places as real * ulp;
    }
  }

  lemma {:induction false} UnderSlack(slack: real, n: real, ulp: real)
    requires slack > 0.0 && ulp > 0.0 && n > 3.0 / slack && n * ulp <= 1.0
    ensures 2.1 * ulp < slack
  {
    assert 3.0 / slack * slack == 3.0;
    assert (n - 3.0 / slack) * slack > 0.0;
    var gap := slack - 2.1 * ulp;
    assert gap * n == n * slack - 2.1 * (n * ulp) > 0.0;
    assert gap <= 0.0 ==> gap * n <= 0.0;
  }

  /** So no number under six cents bounds the chain. */
  lemma {:induction false} NothingLessBounds(bound: real)
    requires bound < 0.06
    ensures exists base, vat, erp, places: nat ::
              && IsDecimal(base, places) && IsDecimal(vat, places) && IsDecimal(erp, places)
              && Chained(base, 10.0, vat, 0.31, 0.32, erp)
              && AbsReal(erp - (base + VatDue(base, 10.0))) > bound
  {
    hide Ulp, IsDecimal, Chained, VatDue;
    var slack := if bound < 0.0 then 0.06 else 0.06 - bound;
    var n := (3.0 / slack).Floor + 3;
    UlpShrinks(n);
    UnderSlack(slack, n as real, Ulp(n));
    SixCentBoundIsApproached(n);
    assert IsDecimal(0.25 + Ulp(n), n);
  }
}
