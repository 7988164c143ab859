/** The schedule generators of LoanService: calcularAmortizacao validates the parameters,
    normalises the rate and dispatches on the amortization tag to the annuity method
    (calcularPrestacoesConstantes) or the straight-line method (calcularCapitalConstante).
    Both walk a running balance for n periods and round every step to 2 digits, HALF_UP. */
module Amortization {
  import opened Decimals
  import opened Dates
  import opened LoanParameters
  import opened Frequencies
  import opened Installments

  /** The fields of InstallmentDto that the generators fill in. */
  datatype InstallmentDto = InstallmentDto(
    installmentNumber: int,
    installmentDate: LocalDate,
    installmentAmount: Decimal,
    installmentInterest: Decimal,
    installmentTotal: Decimal,
    installmentStatus: Status)

  /** createInstallmentDto: the row carries the values it is given, and every generated
      installment starts A_TEMPO. */
  function CreateInstallmentDto(number: int, date: LocalDate, principal: Decimal, interest: Decimal,
                                total: Decimal): (r: InstallmentDto)
    ensures r.installmentStatus == ATempo
    ensures r.installmentNumber == number && r.installmentDate == date
    ensures r.installmentAmount == principal && r.installmentInterest == interest && r.installmentTotal == total
  {
    InstallmentDto(number, date, principal, interest, total, ATempo)
  }

  /** The interest of one period: the balance before it times the rate, setScale(2, HALF_UP). */
  function Interest(balance: Decimal, rate: Decimal): (i: Decimal)
    ensures i.scale == 2
  {
    SetScale(Mul(balance, rate), 2)
  }

  /** The interest is balance × rate rounded half up to cents, and never negative on a
      non-negative balance and rate. */
  lemma InterestRounds(balance: Decimal, rate: Decimal)
    ensures IsHalfUp(balance.unscaled * rate.unscaled * 100, Pow10(balance.scale + rate.scale),
                     Interest(balance, rate).unscaled)
    ensures balance.unscaled >= 0 && rate.unscaled >= 0 ==> Interest(balance, rate).unscaled >= 0
  {
    var i := Interest(balance, rate).unscaled;
    SetScaleRounds(Mul(balance, rate), 2);
    assert Pow10(2) == 100;
    if balance.unscaled >= 0 && rate.unscaled >= 0 && i < 0 {
      MulMonotone(0, balance.unscaled, rate.unscaled);
      MulMonotone(i, -1, Pow10(balance.scale + rate.scale));
    }
  }

  // ---------------------------------------------------------------------------------------
  // The annuity (French) method: calcularPrestacoesConstantes

  /** The fixed installment of the annuity method: factor = (1 + rate)^n exactly, then
      amount·rate·factor / (factor − 1) divided to 2 digits HALF_UP; BigDecimal.divide throws
      when factor − 1 is zero. */
  function FixedInstallment(amount: Decimal, rate: Decimal, n: nat): (r: Result<Decimal>)
    ensures r.Err? ==> r.error == DivisionByZero
    ensures r.Ok? ==> r.value.scale == 2
  {
    var factor := Pow(Add(rate, One), n);
    var factorMinusOne := Sub(factor, One);
    if factorMinusOne.unscaled == 0 then Err(DivisionByZero)
    else Ok(Divide(Mul(Mul(amount, rate), factor), factorMinusOne, 2))
  }

  /** q cents is P·r·f / (f − 1) rounded HALF_UP, where f = (1 + r)^n and f − 1 > 0, all
      written over the common denominators of the scales. */
  predicate AnnuityPaymentRounding(amount: Decimal, rate: Decimal, n: nat, q: int)
  {
    var factor := Power(Pow10(rate.scale) + rate.unscaled, n);
    var factorMinusOne := factor - Pow10(rate.scale * n);
    && factorMinusOne > 0
    && IsHalfUp(amount.unscaled * rate.unscaled * factor * 100,
                factorMinusOne * Pow10(amount.scale + rate.scale), q)
  }

  /** For a non-negative rate the payment fails exactly when n is 0 or the rate is 0, and
      otherwise is P·r·f / (f − 1) rounded HALF_UP to cents, with f = (1 + r)^n. */
  lemma FixedInstallmentValue(amount: Decimal, rate: Decimal, n: nat)
    requires rate.unscaled >= 0
    ensures FixedInstallment(amount, rate, n).Err? <==> n == 0 || rate.unscaled == 0
    ensures FixedInstallment(amount, rate, n).Ok? ==>
      AnnuityPaymentRounding(amount, rate, n, FixedInstallment(amount, rate, n).value.unscaled)
  {
    FactorValue(rate, n);
    FactorCases(rate, n);
    var r := FixedInstallment(amount, rate, n);
    if r.Ok? {
      var f := Power(Pow10(rate.scale) + rate.unscaled, n);
      var fm1 := f - Pow10(rate.scale * n);
      var num := amount.unscaled * rate.unscaled * f;
      var q := r.value.unscaled;
      var x := Mul(Mul(amount, rate), Decimal(f, rate.scale * n));
      var y := Decimal(fm1, rate.scale * n);
      assert x == Decimal(num, (amount.scale + rate.scale) + rate.scale * n);
      assert r.value == Divide(x, y, 2);
      DivideAt(x, y, 2, num, (amount.scale + rate.scale) + rate.scale * n, fm1, rate.scale * n);
      assert fm1 > 0;
      FixedInstallmentReduced(num, fm1, amount.scale + rate.scale, rate.scale * n, q);
      assert IsHalfUp(num * 100, fm1 * Pow10(amount.scale + rate.scale), q);
      assert AnnuityPaymentRounding(amount, rate, n, q);
    }
  }

  lemma DivideAt(x: Decimal, y: Decimal, s: nat, num: int, xs: nat, den: int, ys: nat)
    requires x == Decimal(num, xs) && y == Decimal(den, ys) && den > 0
    ensures IsHalfUp(num * Pow10(s + ys), den * Pow10(xs), Divide(x, y, s).unscaled)
  {
    DivideRounds(x, y, s);
  }

  /** The exact values of factor and factor − 1. */
  lemma FactorValue(rate: Decimal, n: nat)
    ensures Pow(Add(rate, One), n) == Decimal(Power(Pow10(rate.scale) + rate.unscaled, n), rate.scale * n)
    ensures Sub(Pow(Add(rate, One), n), One) ==
      Decimal(Power(Pow10(rate.scale) + rate.unscaled, n) - Pow10(rate.scale * n), rate.scale * n)
  {
    var a := Add(rate, One);
    AddOne(rate);
    assert a.unscaled == Pow10(rate.scale) + rate.unscaled;
    assert a.scale == rate.scale;
    var factor := Pow(a, n);
    assert factor.unscaled == Power(a.unscaled, n);
    assert factor.scale == rate.scale * n;
    SubOne(factor);
  }

  /** For a non-negative rate, factor − 1 vanishes exactly when n is 0 or the rate is 0. */
  lemma FactorCases(rate: Decimal, n: nat)
    ensures rate.unscaled >= 0 && (n == 0 || rate.unscaled == 0) ==>
      Power(Pow10(rate.scale) + rate.unscaled, n) == Pow10(rate.scale * n)
    ensures n > 0 && rate.unscaled > 0 ==>
      Power(Pow10(rate.scale) + rate.unscaled, n) > Pow10(rate.scale * n)
  {
    if rate.unscaled == 0 {
      PowerOfPow10(rate.scale, n);
    } else if n > 0 && rate.unscaled > 0 {
      PowerOfPow10(rate.scale, n);
      PowerStrictlyMonotone(Pow10(rate.scale) + rate.unscaled, Pow10(rate.scale), n);
    }
  }

  lemma AddOne(x: Decimal)
    ensures Add(x, One) == Decimal(Pow10(x.scale) + x.unscaled, x.scale)
  {
    assert Rescaled(x, x.scale) == x.unscaled;
  }

  lemma SubOne(x: Decimal)
    ensures Sub(x, One) == Decimal(x.unscaled - Pow10(x.scale), x.scale)
  {
    assert Rescaled(x, x.scale) == x.unscaled;
  }

  lemma MulAssoc(a: int, b: int, c: int)
    ensures a * (b * c) == (a * b) * c
  {
  }

  /** The division written at scale 2 + e over scale s + e is the same rounding as the
      reduced fraction. */
  lemma FixedInstallmentReduced(num: int, den: int, s: nat, e: nat, q: int)
    requires den > 0 ==> IsHalfUp(num * Pow10(2 + e), den * Pow10(s + e), q)
    ensures den > 0 ==> IsHalfUp(num * 100, den * Pow10(s), q)
  {
    if den > 0 {
      var c := Pow10(e);
      var n1 := num * 100;
      var d1 := den * Pow10(s);
      Pow10Add(2, e);
      Pow10Add(s, e);
      assert Pow10(2) == 100;
      MulAssoc(num, 100, c);
      MulAssoc(den, Pow10(s), c);
      assert num * Pow10(2 + e) == n1 * c;
      assert den * Pow10(s + e) == d1 * c;
      MulStrict(0, den, Pow10(s));
      HalfUpScale(n1, d1, q, c);
    }
  }

  /** principal = (fixedInstallment − interest).setScale(2, HALF_UP): in cents, and for a fixed
      installment in cents it is exactly the installment less the interest. */
  function AnnuityPrincipal(balance: Decimal, rate: Decimal, fixed: Decimal): (p: Decimal)
    ensures p.scale == 2
    ensures fixed.scale == 2 ==> p.unscaled == fixed.unscaled - Interest(balance, rate).unscaled
  {
    SetScale(Sub(fixed, Interest(balance, rate)), 2)
  }

  /** The running balance of the annuity method before period k (0-based): the amount itself,
      then rounded to cents after every period. */
  function AnnuityBalance(amount: Decimal, rate: Decimal, fixed: Decimal, k: nat): (b: Decimal)
    ensures k == 0 ==> b == amount
    ensures k > 0 ==> b.scale == 2
  {
    if k == 0 then amount
    else
      var b := AnnuityBalance(amount, rate, fixed, k - 1);
      SetScale(Sub(b, AnnuityPrincipal(b, rate, fixed)), 2)
  }

  /** The installment the annuity method emits for period k (0-based). */
  function AnnuityRow(amount: Decimal, date: LocalDate, f: Frequency, rate: Decimal, fixed: Decimal,
                      k: nat): InstallmentDto
  {
    var b := AnnuityBalance(amount, rate, fixed, k);
    CreateInstallmentDto(k + 1, DueDate(date, k, f), AnnuityPrincipal(b, rate, fixed), Interest(b, rate), fixed)
  }

  /** The first n installments of the annuity method. */
  function AnnuitySchedule(amount: Decimal, date: LocalDate, f: Frequency, rate: Decimal, fixed: Decimal,
                           n: nat): seq<InstallmentDto>
  {
    seq(n, (k: int) requires 0 <= k < n => AnnuityRow(amount, date, f, rate, fixed, k))
  }

  /** One more period appends one row. */
  lemma AnnuityScheduleSnoc(amount: Decimal, date: LocalDate, f: Frequency, rate: Decimal, fixed: Decimal, n: nat)
    ensures AnnuitySchedule(amount, date, f, rate, fixed, n + 1) ==
      AnnuitySchedule(amount, date, f, rate, fixed, n) + [AnnuityRow(amount, date, f, rate, fixed, n)]
  {
  }

  /** calcularPrestacoesConstantes with the proportional rate already computed. */
  method ConstantInstallments(amount: Decimal, date: LocalDate, n: nat, f: Frequency, rate: Decimal)
    returns (r: Result<seq<InstallmentDto>>)
    ensures FixedInstallment(amount, rate, n).Err? ==> r == Err(DivisionByZero)
    ensures FixedInstallment(amount, rate, n).Ok? ==>
      r == Ok(AnnuitySchedule(amount, date, f, rate, FixedInstallment(amount, rate, n).value, n))
  {
    var fixedInstallment := FixedInstallment(amount, rate, n);
    if fixedInstallment.Err? {
      return Err(fixedInstallment.error);
    }
    var fixed := fixedInstallment.value;
    var installments: seq<InstallmentDto> := [];
    var remainingBalance := amount;
    for i := 0 to n
      invariant |installments| == i
      invariant remainingBalance == AnnuityBalance(amount, rate, fixed, i)
      invariant installments == AnnuitySchedule(amount, date, f, rate, fixed, i)
    {
      var interest := SetScale(Mul(remainingBalance, rate), 2);
      var principal := SetScale(Sub(fixed, interest), 2);
      remainingBalance := SetScale(Sub(remainingBalance, principal), 2);
      var installmentDate := DueDate(date, i, f);
      var row := CreateInstallmentDto(i + 1, installmentDate, principal, interest, fixed);
      assert row == AnnuityRow(amount, date, f, rate, fixed, i);
      AnnuityScheduleSnoc(amount, date, f, rate, fixed, i);
      installments := installments + [row];
    }
    return Ok(installments);
  }

  // ---------------------------------------------------------------------------------------
  // The straight-line method: calcularCapitalConstante

  /** constantPrincipal = amount / n, 2 digits HALF_UP; BigDecimal.divide throws for n = 0. */
  function ConstantPrincipalAmount(amount: Decimal, n: nat): (r: Result<Decimal>)
    ensures r.Ok? <==> n > 0
    ensures r.Err? ==> r.error == DivisionByZero
    ensures r.Ok? ==> r.value.scale == 2
  {
    if n == 0 then Err(DivisionByZero) else Ok(Divide(amount, Decimal(n, 0), 2))
  }

  /** The constant principal is amount / n rounded half up to cents. */
  lemma ConstantPrincipalRounds(amount: Decimal, n: nat)
    requires n > 0
    ensures IsHalfUp(amount.unscaled * 100, n * Pow10(amount.scale), ConstantPrincipalAmount(amount, n).value.unscaled)
  {
    DivideRounds(amount, Decimal(n, 0), 2);
    assert Pow10(2 + 0) == 100;
  }

  /** The running balance of the straight-line method before period k (0-based): the amount
      itself, then rounded to cents after every period. */
  function StraightLineBalance(amount: Decimal, principal: Decimal, k: nat): (b: Decimal)
    ensures k == 0 ==> b == amount
    ensures k > 0 ==> b.scale == 2
  {
    if k == 0 then amount
    else SetScale(Sub(StraightLineBalance(amount, principal, k - 1), principal), 2)
  }

  /** The installment the straight-line method emits for period k (0-based). */
  function StraightLineRow(amount: Decimal, date: LocalDate, f: Frequency, rate: Decimal, principal: Decimal,
                           k: nat): InstallmentDto
  {
    var interest := Interest(StraightLineBalance(amount, principal, k), rate);
    CreateInstallmentDto(k + 1, DueDate(date, k, f), principal, interest, SetScale(Add(principal, interest), 2))
  }

  /** The first n installments of the straight-line method. */
  function StraightLineSchedule(amount: Decimal, date: LocalDate, f: Frequency, rate: Decimal, principal: Decimal,
                                n: nat): seq<InstallmentDto>
  {
    seq(n, (k: int) requires 0 <= k < n => StraightLineRow(amount, date, f, rate, principal, k))
  }

  /** One more period appends one row. */
  lemma StraightLineScheduleSnoc(amount: Decimal, date: LocalDate, f: Frequency, rate: Decimal, principal: Decimal,
                                 n: nat)
    ensures StraightLineSchedule(amount, date, f, rate, principal, n + 1) ==
      StraightLineSchedule(amount, date, f, rate, principal, n) + [StraightLineRow(amount, date, f, rate, principal, n)]
  {
  }

  /** calcularCapitalConstante with the proportional rate already computed. */
  method ConstantPrincipal(amount: Decimal, date: LocalDate, n: nat, f: Frequency, rate: Decimal)
    returns (r: Result<seq<InstallmentDto>>)
    ensures n == 0 ==> r == Err(DivisionByZero)
    ensures n > 0 ==>
      r == Ok(StraightLineSchedule(amount, date, f, rate, ConstantPrincipalAmount(amount, n).value, n))
  {
    var principalResult := ConstantPrincipalAmount(amount, n);
    if principalResult.Err? {
      return Err(principalResult.error);
    }
    var constantPrincipal := principalResult.value;
    var installments: seq<InstallmentDto> := [];
    var remainingBalance := amount;
    for i := 0 to n
      invariant |installments| == i
      invariant remainingBalance == StraightLineBalance(amount, constantPrincipal, i)
      invariant installments == StraightLineSchedule(amount, date, f, rate, constantPrincipal, i)
    {
      var interest := SetScale(Mul(remainingBalance, rate), 2);
      var total := SetScale(Add(constantPrincipal, interest), 2);
      remainingBalance := SetScale(Sub(remainingBalance, constantPrincipal), 2);
      var installmentDate := DueDate(date, i, f);
      var row := CreateInstallmentDto(i + 1, installmentDate, constantPrincipal, interest, total);
      assert row == StraightLineRow(amount, date, f, rate, constantPrincipal, i);
      StraightLineScheduleSnoc(amount, date, f, rate, constantPrincipal, i);
      installments := installments + [row];
    }
    return Ok(installments);
  }

  // ---------------------------------------------------------------------------------------
  // What the schedules guarantee

  /** The principal column summed, in units of the rows' last digit (cents). */
  function PrincipalCents(rows: seq<InstallmentDto>): int
  {
    if rows == [] then 0
    else PrincipalCents(rows[..|rows| - 1]) + rows[|rows| - 1].installmentAmount.unscaled
  }

  /** Every annuity row is numbered from 1, falls on its due date, starts A_TEMPO, carries the
      fixed installment as total, and splits it exactly into principal and interest cents. */
  lemma AnnuityRowsShape(amount: Decimal, date: LocalDate, f: Frequency, rate: Decimal, fixed: Decimal, n: nat)
    requires fixed.scale == 2
    ensures var rows := AnnuitySchedule(amount, date, f, rate, fixed, n);
      && |rows| == n
      && forall k :: 0 <= k < n ==>
        && rows[k].installmentNumber == k + 1
        && rows[k].installmentDate == DueDate(date, k, f)
        && rows[k].installmentStatus == ATempo
        && rows[k].installmentTotal == fixed
        && rows[k].installmentAmount.scale == 2 && rows[k].installmentInterest.scale == 2
        && rows[k].installmentAmount.unscaled + rows[k].installmentInterest.unscaled == fixed.unscaled
  {
    var rows := AnnuitySchedule(amount, date, f, rate, fixed, n);
    forall k | 0 <= k < n
      ensures rows[k].installmentAmount.unscaled + rows[k].installmentInterest.unscaled == fixed.unscaled
    {
      var b := AnnuityBalance(amount, rate, fixed, k);
      var interest := Interest(b, rate);
      SameScale(fixed, interest);
      SetScaleSame(Sub(fixed, interest));
    }
  }

  /** Telescoping: when the amount has at most two decimals, the balance before period k is, to
      the cent, the amount less the principal of the first k rows. Every rounding of the balance
      is exact, so no cent is lost on the principal side. */
  lemma {:induction false} AnnuityBalanceTelescopes(amount: Decimal, date: LocalDate, f: Frequency, rate: Decimal,
                                                    fixed: Decimal, k: nat)
    requires amount.scale <= 2 && fixed.scale == 2
    ensures AnnuityBalance(amount, rate, fixed, k).scale <= 2
    ensures Rescaled(AnnuityBalance(amount, rate, fixed, k), 2) ==
      Rescaled(amount, 2) - PrincipalCents(AnnuitySchedule(amount, date, f, rate, fixed, k))
  {
    if k == 0 {
      assert AnnuitySchedule(amount, date, f, rate, fixed, 0) == [];
      assert PrincipalCents(AnnuitySchedule(amount, date, f, rate, fixed, 0)) == 0;
    } else {
      var j := k - 1;
      AnnuityBalanceTelescopes(amount, date, f, rate, fixed, j);
      AnnuityTelescopeStep(amount, date, f, rate, fixed, j);
      assert j + 1 == k;
    }
  }

  /** One step of the telescoping sum, from the balance before period k to the one after it. */
  lemma AnnuityTelescopeStep(amount: Decimal, date: LocalDate, f: Frequency, rate: Decimal, fixed: Decimal, k: nat)
    requires amount.scale <= 2 && fixed.scale == 2 && AnnuityBalance(amount, rate, fixed, k).scale <= 2
    requires Rescaled(AnnuityBalance(amount, rate, fixed, k), 2) ==
      Rescaled(amount, 2) - PrincipalCents(AnnuitySchedule(amount, date, f, rate, fixed, k))
    ensures AnnuityBalance(amount, rate, fixed, k + 1).scale <= 2
    ensures Rescaled(AnnuityBalance(amount, rate, fixed, k + 1), 2) ==
      Rescaled(amount, 2) - PrincipalCents(AnnuitySchedule(amount, date, f, rate, fixed, k + 1))
  {
    AnnuityBalanceStep(amount, rate, fixed, k);
    AnnuityPrincipalCentsStep(amount, date, f, rate, fixed, k);
  }

  lemma AnnuityBalanceStep(amount: Decimal, rate: Decimal, fixed: Decimal, k: nat)
    requires AnnuityBalance(amount, rate, fixed, k).scale <= 2 && fixed.scale == 2
    ensures AnnuityBalance(amount, rate, fixed, k + 1).scale == 2
    ensures Rescaled(AnnuityBalance(amount, rate, fixed, k + 1), 2) ==
      Rescaled(AnnuityBalance(amount, rate, fixed, k), 2)
      - AnnuityPrincipal(AnnuityBalance(amount, rate, fixed, k), rate, fixed).unscaled
  {
    var b := AnnuityBalance(amount, rate, fixed, k);
    var p := AnnuityPrincipal(b, rate, fixed);
    var b2 := Decimal(Rescaled(b, 2), 2);
    assert Sub(b, p) == Sub(b2, p);
    SameScale(b2, p);
    SetScaleSame(Sub(b2, p));
    var next := AnnuityBalance(amount, rate, fixed, k + 1);
    assert next == Decimal(Rescaled(b, 2) - p.unscaled, 2);
    assert Rescaled(next, 2) == next.unscaled;
  }

  lemma AnnuityPrincipalCentsStep(amount: Decimal, date: LocalDate, f: Frequency, rate: Decimal, fixed: Decimal,
                                  k: nat)
    ensures PrincipalCents(AnnuitySchedule(amount, date, f, rate, fixed, k + 1)) ==
      PrincipalCents(AnnuitySchedule(amount, date, f, rate, fixed, k))
      + AnnuityPrincipal(AnnuityBalance(amount, rate, fixed, k), rate, fixed).unscaled
  {
    AnnuityScheduleSnoc(amount, date, f, rate, fixed, k);
    var before := AnnuitySchedule(amount, date, f, rate, fixed, k);
    var rows := before + [AnnuityRow(amount, date, f, rate, fixed, k)];
    assert rows[..|rows| - 1] == before;
  }

  /** Every straight-line row is numbered from 1, falls on its due date, starts A_TEMPO, repays
      the constant principal, and its total is exactly principal plus interest. */
  lemma StraightLineRowsShape(amount: Decimal, date: LocalDate, f: Frequency, rate: Decimal, principal: Decimal,
                              n: nat)
    requires principal.scale == 2
    ensures var rows := StraightLineSchedule(amount, date, f, rate, principal, n);
      && |rows| == n
      && forall k :: 0 <= k < n ==>
        && rows[k].installmentNumber == k + 1
        && rows[k].installmentDate == DueDate(date, k, f)
        && rows[k].installmentStatus == ATempo
        && rows[k].installmentAmount == principal
        && rows[k].installmentInterest.scale == 2 && rows[k].installmentTotal.scale == 2
        && rows[k].installmentTotal.unscaled == principal.unscaled + rows[k].installmentInterest.unscaled
  {
    var rows := StraightLineSchedule(amount, date, f, rate, principal, n);
    forall k | 0 <= k < n
      ensures rows[k].installmentTotal.unscaled == principal.unscaled + rows[k].installmentInterest.unscaled
    {
      var interest := Interest(StraightLineBalance(amount, principal, k), rate);
      SameScale(principal, interest);
      SetScaleSame(Add(principal, interest));
    }
  }

  /** When the amount has at most two decimals, the straight-line balance before period k is
      exactly the amount less k constant principals. */
  lemma {:induction false} StraightLineBalanceValue(amount: Decimal, principal: Decimal, k: nat)
    requires amount.scale <= 2 && principal.scale == 2
    ensures StraightLineBalance(amount, principal, k).scale <= 2
    ensures Rescaled(StraightLineBalance(amount, principal, k), 2) == Rescaled(amount, 2) - k * principal.unscaled
  {
    if k > 0 {
      StraightLineBalanceValue(amount, principal, k - 1);
      var b := StraightLineBalance(amount, principal, k - 1);
      var b2 := Decimal(Rescaled(b, 2), 2);
      assert Sub(b, principal) == Sub(b2, principal);
      SameScale(b2, principal);
      SetScaleSame(Sub(b2, principal));
      var next := StraightLineBalance(amount, principal, k);
      assert next == Decimal(Rescaled(b, 2) - principal.unscaled, 2);
      assert Rescaled(next, 2) == next.unscaled;
      assert k * principal.unscaled == (k - 1) * principal.unscaled + principal.unscaled;
    }
  }

  /** Closure of the straight-line method: after the last period the balance left is the
      amount less n rounded principals, and it is at most half a cent per installment away
      from zero. */
  lemma StraightLineCloses(amount: Decimal, n: nat)
    requires amount.scale <= 2 && n > 0
    ensures var principal := ConstantPrincipalAmount(amount, n).value;
      var residual := Rescaled(StraightLineBalance(amount, principal, n), 2);
      && residual == Rescaled(amount, 2) - n * principal.unscaled
      && -(n as int) <= 2 * residual <= n
  {
    var principal := ConstantPrincipalAmount(amount, n).value;
    var q := principal.unscaled;
    ConstantPrincipalRounds(amount, n);
    StraightLineBalanceValue(amount, principal, n);
    var a := Rescaled(amount, 2);
    var c := Pow10(amount.scale);
    Pow10Add(2 - amount.scale, amount.scale);
    assert Pow10(2) == 100;
    assert amount.unscaled * 100 == a * c;
    HalfUpScale(a, n, q, c);
    HalfUpError(a, n, q);
  }

  // ---------------------------------------------------------------------------------------
  // The dispatcher: calcularAmortizacao

  /** The shape every generated schedule has: n rows numbered 1..n, row k due on the date
      calcularDataParcela gives for index k, every row A_TEMPO. */
  predicate ScheduleShape(rows: seq<InstallmentDto>, n: int, date: LocalDate, frequency: string)
  {
    && |rows| == n
    && forall k :: 0 <= k < |rows| ==>
      && rows[k].installmentNumber == k + 1
      && Ok(rows[k].installmentDate) == InstallmentDate(date, k, frequency)
      && rows[k].installmentStatus == ATempo
  }

  lemma AnnuityScheduleShape(amount: Decimal, date: LocalDate, f: Frequency, rate: Decimal, fixed: Decimal, n: nat,
                             frequency: string)
    requires fixed.scale == 2 && ParseFrequency(frequency) == Some(f)
    ensures ScheduleShape(AnnuitySchedule(amount, date, f, rate, fixed, n), n, date, frequency)
    ensures n > 0 ==> AnnuitySchedule(amount, date, f, rate, fixed, n)[0].installmentDate == date
  {
    AnnuityRowsShape(amount, date, f, rate, fixed, n);
    DueDateFirst(date, f);
  }

  lemma StraightLineScheduleShape(amount: Decimal, date: LocalDate, f: Frequency, rate: Decimal, principal: Decimal,
                                  n: nat, frequency: string)
    requires principal.scale == 2 && ParseFrequency(frequency) == Some(f)
    ensures ScheduleShape(StraightLineSchedule(amount, date, f, rate, principal, n), n, date, frequency)
    ensures n > 0 ==> StraightLineSchedule(amount, date, f, rate, principal, n)[0].installmentDate == date
  {
    StraightLineRowsShape(amount, date, f, rate, principal, n);
    DueDateFirst(date, f);
  }

  /** The parameters get past validarParametros and calcularTaxaProporcional. */
  predicate Accepted(req: LoanRequest, today: LocalDate)
  {
    && Validate(req, today) == Pass
    && req.frequency.Some?
    && ParseFrequency(req.frequency.value).Some?
  }

  /** calcularAmortizacao, with `today` for LocalDate.now(): validate, normalise the rate, then
      run the generator the amortization tag names. */
  method ComputeAmortization(req: LoanRequest, today: LocalDate) returns (r: Result<seq<InstallmentDto>>)
    ensures Validate(req, today).Fail? ==> r == Err(Validate(req, today).error)
    ensures Validate(req, today) == Pass && req.frequency.None? ==> r == Err(NullValue)
    ensures Validate(req, today) == Pass && req.frequency.Some? && ParseFrequency(req.frequency.value).None? ==>
      r == Err(InvalidFrequency)
    ensures Accepted(req, today) ==>
      var amount, date, n := req.amount.value, req.date.value, req.numberOfInstallments.value;
      var rate := ProportionalRate(req.interestRate.value, req.frequency.value).value;
      var f := ParseFrequency(req.frequency.value).value;
      && (req.amortizationType.value == PrestacoesConstantes ==>
            if rate.unscaled == 0 then r == Err(DivisionByZero)
            else FixedInstallment(amount, rate, n).Ok? &&
                 r == Ok(AnnuitySchedule(amount, date, f, rate, FixedInstallment(amount, rate, n).value, n)))
      && (req.amortizationType.value == CapitalConstante ==>
            r == Ok(StraightLineSchedule(amount, date, f, rate, ConstantPrincipalAmount(amount, n).value, n)))
    ensures r.Ok? ==>
      && Accepted(req, today)
      && ScheduleShape(r.value, req.numberOfInstallments.value, req.date.value, req.frequency.value)
      && r.value[0].installmentDate == req.date.value
  {
    var validation := Validate(req, today);
    if validation.Fail? {
      return Err(validation.error);
    }
    if req.frequency.None? {
      return Err(NullValue);
    }
    var proportionalRate := ProportionalRate(req.interestRate.value, req.frequency.value);
    if proportionalRate.Err? {
      return Err(proportionalRate.error);
    }
    var rate := proportionalRate.value;
    var f := ParseFrequency(req.frequency.value).value;
    var amount, date, n := req.amount.value, req.date.value, req.numberOfInstallments.value;
    ProportionalRateNonNegative(req.interestRate.value, req.frequency.value);
    if req.amortizationType.value == PrestacoesConstantes {
      r := ConstantInstallments(amount, date, n, f, rate);
      FixedInstallmentValue(amount, rate, n);
      if r.Ok? {
        AnnuityScheduleShape(amount, date, f, rate, FixedInstallment(amount, rate, n).value, n, req.frequency.value);
      }
    } else {
      assert req.amortizationType.value == CapitalConstante;
      r := ConstantPrincipal(amount, date, n, f, rate);
      StraightLineScheduleShape(amount, date, f, rate, ConstantPrincipalAmount(amount, n).value, n,
                                req.frequency.value);
    }
  }
}
