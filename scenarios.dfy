/** Worked cases of the engine, stated on the model. */
module Scenarios {
  import opened Decimals
  import opened Dates
  import opened LoanParameters
  import opened Frequencies
  import opened Installments
  import opened Amortization

  /** The powers of ten the worked cases need. */
  lemma Pow10Table()
    ensures Pow10(10) == 10000000000
    ensures Pow10(20) == 100000000000000000000
    ensures Pow10(30) == 1000000000000000000000000000000
    ensures Pow10(32) == 100000000000000000000000000000000
    ensures Pow10(42) == 1000000000000000000000000000000000000000000
  {
    Pow10Add(10, 10);
    Pow10Add(10, 20);
    Pow10Add(2, 30);
    Pow10Add(10, 32);
  }

  const LoanAmount := Decimal(100000, 2)
  const MonthlyRate := Decimal(500000000, 10)
  const Payment := Decimal(36721, 2)

  /** 1000.00 at 5% per month over 3 months, annuity method: the fixed installment is 367.21. */
  lemma AnnuityPaymentExample()
    ensures FixedInstallment(LoanAmount, MonthlyRate, 3) == Ok(Payment)
  {
    AnnuityFactorExample();
    var x := Mul(Mul(LoanAmount, MonthlyRate), Decimal(1157625000000000000000000000000, 30));
    assert x == Decimal(57881250000000000000000000000000000000000000, 42);
    Pow10Table();
    assert Divide(x, Decimal(157625000000000000000000000000, 30), 2)
      == Decimal(DivHalfUp(57881250000000000000000000000000000000000000 * Pow10(32),
                           157625000000000000000000000000 * Pow10(42)), 2);
    assert DivHalfUp(57881250000000000000000000000000000000000000 * Pow10(32),
                     157625000000000000000000000000 * Pow10(42)) == 36721;
  }

  /** (1 + 0.05)^3 = 1.157625, written with 30 decimals as BigDecimal.pow keeps them. */
  lemma AnnuityFactorExample()
    ensures Pow(Add(MonthlyRate, One), 3) == Decimal(1157625000000000000000000000000, 30)
    ensures Sub(Pow(Add(MonthlyRate, One), 3), One) == Decimal(157625000000000000000000000000, 30)
  {
    Pow10Table();
    FactorValue(MonthlyRate, 3);
    assert Power(10500000000, 3) == 1157625000000000000000000000000;
  }

  /** Interest on a balance in cents at a rate with 10 decimals, rounded half up to cents. */
  lemma InterestInCents(balance: int, rate: int)
    requires balance * rate >= 0
    ensures Interest(Decimal(balance, 2), Decimal(rate, 10)) ==
      Decimal((2 * (balance * rate) + 10000000000) / 20000000000, 2)
  {
    Pow10Table();
    assert Mul(Decimal(balance, 2), Decimal(rate, 10)) == Decimal(balance * rate, 12);
    assert 12 - 2 == 10;
  }

  lemma MonthlyInterest(balance: int)
    requires balance >= 0
    ensures Interest(Decimal(balance, 2), MonthlyRate) ==
      Decimal((2 * (balance * 500000000) + 10000000000) / 20000000000, 2)
  {
    InterestInCents(balance, 500000000);
  }

  /** One period of the annuity method on a balance held in cents, with the fixed installment
      `payment` in cents and the interest on the balance known. */
  lemma AnnuityStep(rate: Decimal, payment: int, balance: int, interest: int)
    requires Interest(Decimal(balance, 2), rate) == Decimal(interest, 2)
    ensures AnnuityPrincipal(Decimal(balance, 2), rate, Decimal(payment, 2)) == Decimal(payment - interest, 2)
    ensures SetScale(Sub(Decimal(balance, 2), AnnuityPrincipal(Decimal(balance, 2), rate, Decimal(payment, 2))), 2) ==
      Decimal(balance - (payment - interest), 2)
  {
    var p := AnnuityPrincipal(Decimal(balance, 2), rate, Decimal(payment, 2));
    assert p == Decimal(payment - interest, 2);
    var next := Decimal(balance - (payment - interest), 2);
    SameScale(Decimal(balance, 2), p);
    assert Sub(Decimal(balance, 2), p) == next;
    SetScaleSame(next);
  }

  /** The balances after each period: 682.79, 349.72 and exactly zero. */
  lemma AnnuityBalancesExample()
    ensures AnnuityBalance(LoanAmount, MonthlyRate, Payment, 1) == Decimal(68279, 2)
    ensures AnnuityBalance(LoanAmount, MonthlyRate, Payment, 2) == Decimal(34972, 2)
    ensures AnnuityBalance(LoanAmount, MonthlyRate, Payment, 3) == Decimal(0, 2)
  {
    MonthlyInterest(100000);
    AnnuityStep(MonthlyRate, 36721, 100000, 5000);
    MonthlyInterest(68279);
    AnnuityStep(MonthlyRate, 36721, 68279, 3414);
    MonthlyInterest(34972);
    AnnuityStep(MonthlyRate, 36721, 34972, 1749);
  }

  const AnnuityLoanDate: LocalDate := Date(2024, 1, 1)

  /** The rows: interest 50.00, 34.14, 17.49 and principal 317.21, 333.07, 349.72. The first
      installment is due on the loan date itself, the last two months later. */
  lemma AnnuityRowsExample()
    ensures AnnuitySchedule(LoanAmount, AnnuityLoanDate, Mensal, MonthlyRate, Payment, 3)[0].installmentInterest ==
      Decimal(5000, 2)
    ensures AnnuitySchedule(LoanAmount, AnnuityLoanDate, Mensal, MonthlyRate, Payment, 3)[0].installmentAmount ==
      Decimal(31721, 2)
    ensures AnnuitySchedule(LoanAmount, AnnuityLoanDate, Mensal, MonthlyRate, Payment, 3)[1].installmentInterest ==
      Decimal(3414, 2)
    ensures AnnuitySchedule(LoanAmount, AnnuityLoanDate, Mensal, MonthlyRate, Payment, 3)[1].installmentAmount ==
      Decimal(33307, 2)
    ensures AnnuitySchedule(LoanAmount, AnnuityLoanDate, Mensal, MonthlyRate, Payment, 3)[2].installmentInterest ==
      Decimal(1749, 2)
    ensures AnnuitySchedule(LoanAmount, AnnuityLoanDate, Mensal, MonthlyRate, Payment, 3)[2].installmentAmount ==
      Decimal(34972, 2)
    ensures AnnuitySchedule(LoanAmount, AnnuityLoanDate, Mensal, MonthlyRate, Payment, 3)[0].installmentDate ==
      AnnuityLoanDate
    ensures AnnuitySchedule(LoanAmount, AnnuityLoanDate, Mensal, MonthlyRate, Payment, 3)[2].installmentDate ==
      Date(2024, 3, 1)
  {
    AnnuityRowExample(0, 100000, 5000);
    AnnuityRowExample(1, 68279, 3414);
    AnnuityRowExample(2, 34972, 1749);
    AnnuityDatesExample();
  }

  /** Row k from the balance before it and the interest on that balance, both in cents. */
  lemma AnnuityRowExample(k: nat, balance: int, interest: int)
    requires || (k == 0 && balance == 100000 && interest == 5000)
             || (k == 1 && balance == 68279 && interest == 3414)
             || (k == 2 && balance == 34972 && interest == 1749)
    ensures var row := AnnuityRow(LoanAmount, AnnuityLoanDate, Mensal, MonthlyRate, Payment, k);
      row.installmentInterest == Decimal(interest, 2) && row.installmentAmount == Decimal(36721 - interest, 2)
  {
    AnnuityBalancesExample();
    if k == 0 {
      MonthlyInterest(100000);
      AnnuityStep(MonthlyRate, 36721, 100000, 5000);
    } else if k == 1 {
      MonthlyInterest(68279);
      AnnuityStep(MonthlyRate, 36721, 68279, 3414);
    } else {
      MonthlyInterest(34972);
      AnnuityStep(MonthlyRate, 36721, 34972, 1749);
    }
  }

  /** Monthly due dates from 2024-01-01: index 0 is that day, index 2 is 2024-03-01. */
  lemma AnnuityDatesExample()
    ensures DueDate(AnnuityLoanDate, 0, Mensal) == AnnuityLoanDate
    ensures DueDate(AnnuityLoanDate, 2, Mensal) == Date(2024, 3, 1)
  {
  }

  const UnitAmount := Decimal(100, 2)
  const HighRate := Decimal(8900000000, 10)
  const UnitPayment := Decimal(104, 2)

  /** 1.00 at 89% per period over 3 periods, annuity method: the fixed installment is 1.04. */
  lemma HighRatePaymentExample()
    ensures FixedInstallment(UnitAmount, HighRate, 3) == Ok(UnitPayment)
  {
    HighRateFactorExample();
    var x := Mul(Mul(UnitAmount, HighRate), Decimal(6751269000000000000000000000000, 30));
    assert x == Decimal(6008629410000000000000000000000000000000000, 42);
    Pow10Table();
    assert Divide(x, Decimal(5751269000000000000000000000000, 30), 2)
      == Decimal(DivHalfUp(6008629410000000000000000000000000000000000 * Pow10(32),
                           5751269000000000000000000000000 * Pow10(42)), 2);
    assert DivHalfUp(6008629410000000000000000000000000000000000 * Pow10(32),
                     5751269000000000000000000000000 * Pow10(42)) == 104;
  }

  /** (1 + 0.89)^3 = 6.751269, with 30 decimals. */
  lemma HighRateFactorExample()
    ensures Pow(Add(HighRate, One), 3) == Decimal(6751269000000000000000000000000, 30)
    ensures Sub(Pow(Add(HighRate, One), 3), One) == Decimal(5751269000000000000000000000000, 30)
  {
    Pow10Table();
    FactorValue(HighRate, 3);
    assert Power(18900000000, 3) == 6751269000000000000000000000000;
  }

  /** The annuity balance need not close to within a cent per installment: for 1.00 at 89% over
      3 periods the interest is 0.89, 0.76, 0.51, the principal 0.15, 0.28, 0.53, and the balance
      after the last installment is 0.04, more than 0.03. */
  lemma AnnuityClosureGapExample()
    ensures FixedInstallment(UnitAmount, HighRate, 3) == Ok(UnitPayment)
    ensures AnnuityBalance(UnitAmount, HighRate, UnitPayment, 1) == Decimal(85, 2)
    ensures AnnuityBalance(UnitAmount, HighRate, UnitPayment, 2) == Decimal(57, 2)
    ensures AnnuityBalance(UnitAmount, HighRate, UnitPayment, 3) == Decimal(4, 2)
    ensures Rescaled(AnnuityBalance(UnitAmount, HighRate, UnitPayment, 3), 2) > 3
  {
    HighRatePaymentExample();
    HighRateBalancesExample();
  }

  lemma HighRateBalancesExample()
    ensures AnnuityBalance(UnitAmount, HighRate, UnitPayment, 1) == Decimal(85, 2)
    ensures AnnuityBalance(UnitAmount, HighRate, UnitPayment, 2) == Decimal(57, 2)
    ensures AnnuityBalance(UnitAmount, HighRate, UnitPayment, 3) == Decimal(4, 2)
  {
    InterestInCents(100, 8900000000);
    AnnuityStep(HighRate, 104, 100, 89);
    InterestInCents(85, 8900000000);
    AnnuityStep(HighRate, 104, 85, 76);
    InterestInCents(57, 8900000000);
    AnnuityStep(HighRate, 104, 57, 51);
  }

  const StraightAmount := Decimal(90000, 2)
  const TenPercent := Decimal(1000000000, 10)
  const StraightPrincipal := Decimal(30000, 2)

  /** 900.00 over 3 installments, straight-line method: the principal is 300.00. */
  lemma StraightLinePrincipalExample()
    ensures ConstantPrincipalAmount(StraightAmount, 3) == Ok(StraightPrincipal)
  {
    assert Pow10(2) == 100;
    assert Pow10(2 + 0) == 100;
  }

  /** The balances before periods 1, 2 and 3 and after the last: 900.00, 600.00, 300.00, 0.00. */
  lemma StraightLineBalanceExample(k: nat)
    requires k <= 3
    ensures StraightLineBalance(StraightAmount, StraightPrincipal, k) == Decimal(90000 - 30000 * k, 2)
  {
    StraightLineBalanceValue(StraightAmount, StraightPrincipal, k);
    var b := StraightLineBalance(StraightAmount, StraightPrincipal, k);
    assert b.scale == 2;
    assert Rescaled(b, 2) == b.unscaled;
  }

  /** The total of row k at 10% per month, from the balance before it in cents. */
  lemma StraightLineTotalExample(k: nat, balance: int, total: int)
    requires k < 3 && balance == 90000 - 30000 * k
    requires total == 30000 + (2 * (balance * 1000000000) + 10000000000) / 20000000000
    ensures StraightLineSchedule(StraightAmount, AnnuityLoanDate, Mensal, TenPercent, StraightPrincipal, 3)[k]
      .installmentTotal == Decimal(total, 2)
  {
    StraightLineBalanceExample(k);
    InterestInCents(balance, 1000000000);
    var interest := Decimal(total - 30000, 2);
    assert Interest(StraightLineBalance(StraightAmount, StraightPrincipal, k), TenPercent) == interest;
    SameScale(StraightPrincipal, interest);
    SetScaleSame(Add(StraightPrincipal, interest));
    assert StraightLineRow(StraightAmount, AnnuityLoanDate, Mensal, TenPercent, StraightPrincipal, k).installmentTotal
      == Decimal(total, 2);
  }

  /** At 10% per month the totals are 390.00, 360.00 and 330.00. */
  lemma StraightLineTotalsExample()
    ensures var rows := StraightLineSchedule(StraightAmount, AnnuityLoanDate, Mensal, TenPercent, StraightPrincipal, 3);
      && rows[0].installmentTotal == Decimal(39000, 2)
      && rows[1].installmentTotal == Decimal(36000, 2)
      && rows[2].installmentTotal == Decimal(33000, 2)
  {
    StraightLineTotalExample(0, 90000, 39000);
    StraightLineTotalExample(1, 60000, 36000);
    StraightLineTotalExample(2, 30000, 33000);
  }

  const WeeklyLoanDate: LocalDate := Date(2024, 1, 15)
  const ThreeWeeksLater: LocalDate := Date(2024, 2, 5)

  /** Weekly schedule: the installment with index 3 of a loan dated 2024-01-15 is due 2024-02-05. */
  lemma WeeklyDueDateExample()
    ensures InstallmentDate(WeeklyLoanDate, 3, "SEMANAL").Ok?
    ensures InstallmentDate(WeeklyLoanDate, 3, "SEMANAL").value == ThreeWeeksLater
  {
    WeeklyTag();
    assert DueDate(WeeklyLoanDate, 3, Semanal) == PlusDays(WeeklyLoanDate, 21);
    ThreeWeeksExample();
  }

  lemma WeeklyTag()
    ensures ParseFrequency("SEMANAL") == Some(Semanal)
  {
    LowerSemanal();
  }

  /** 21 days after 2024-01-15 is 2024-02-05. */
  lemma ThreeWeeksExample()
    ensures PlusDays(WeeklyLoanDate, 21) == ThreeWeeksLater
  {
    EpochDayPlusDays(WeeklyLoanDate, 21);
    assert EpochDay(ThreeWeeksLater) == EpochDay(WeeklyLoanDate) + 21;
    BeforeIffEpochDay(PlusDays(WeeklyLoanDate, 21), ThreeWeeksLater);
  }

  /** Refresh on 2024-03-10: due 03-05 and A_TEMPO becomes VENCIDO, due the same day becomes
      PENDENTE, due 03-15 stays A_TEMPO, and a PAGO installment stays PAGO. */
  lemma RefreshExample()
    ensures NextStatus(ATempo, Date(2024, 3, 5), Date(2024, 3, 10)) == Vencido
    ensures NextStatus(ATempo, Date(2024, 3, 10), Date(2024, 3, 10)) == Pendente
    ensures NextStatus(ATempo, Date(2024, 3, 15), Date(2024, 3, 10)) == ATempo
    ensures NextStatus(Pago, Date(2024, 3, 5), Date(2024, 3, 10)) == Pago
  {
  }

  /** A well-formed request on 2024-03-10. */
  function SampleRequest(): LoanRequest
  {
    LoanRequest(Some(Decimal(100000, 2)), Some(Date(2024, 3, 1)), Some(Decimal(5, 2)),
                Some(PrestacoesConstantes), Some("mensal"), Some(3))
  }

  /** The validator rejects a zero amount, a count of zero and an unknown amortization tag, and
      accepts the well-formed request. */
  lemma ValidateExamples()
    ensures Validate(SampleRequest(), Date(2024, 3, 10)) == Pass
    ensures Validate(SampleRequest().(amount := Some(Decimal(0, 2))), Date(2024, 3, 10)) == Fail(InvalidAmount)
    ensures Validate(SampleRequest().(date := Some(Date(2024, 3, 11))), Date(2024, 3, 10)) == Fail(InvalidDate)
    ensures Validate(SampleRequest().(numberOfInstallments := Some(0)), Date(2024, 3, 10)) == Fail(InvalidInstallmentCount)
    ensures Validate(SampleRequest().(amortizationType := Some("UNKNOWN")), Date(2024, 3, 10)) == Fail(InvalidAmortizationType)
  {
  }

  /** A positive annual rate of 0.00000000001 passes validation, but divided to 10 decimals it
      becomes zero, so the annuity method divides by factor − 1 = 0: the request fails with
      DivisionByZero although the validator accepted it. */
  lemma RateRoundsToZeroExample()
    ensures Accepted(SampleRequest().(interestRate := Some(Decimal(1, 11))), Date(2024, 3, 10))
    ensures ProportionalRate(Decimal(1, 11), "mensal") == Ok(Decimal(0, 10))
    ensures FixedInstallment(Decimal(100000, 2), Decimal(0, 10), 3) == Err(DivisionByZero)
  {
    TinyRateAccepted();
    TinyRateVanishes();
    FixedInstallmentValue(Decimal(100000, 2), Decimal(0, 10), 3);
  }

  lemma TinyRateAccepted()
    ensures Accepted(SampleRequest().(interestRate := Some(Decimal(1, 11))), Date(2024, 3, 10))
  {
  }

  lemma TinyRateVanishes()
    ensures ProportionalRate(Decimal(1, 11), "mensal") == Ok(Decimal(0, 10))
  {
    MonthlyTag();
    Pow10Table();
    assert Pow10(11) == 100000000000;
    assert Divide(Decimal(1, 11), Decimal(1, 0), 10) == Decimal(DivHalfUp(10000000000, 100000000000), 10);
    assert DivHalfUp(10000000000, 100000000000) == 0;
  }

  lemma MonthlyTag()
    ensures ParseFrequency("mensal") == Some(Mensal)
  {
    LowerOf("mensal", "mensal");
  }
}
