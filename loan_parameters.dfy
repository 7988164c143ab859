/** The loan parameters the engine reads (the fields of LoanDto), the failures it reports, and
    the parameter validator of LoanService (validarParametros). */
module LoanParameters {
  import opened Decimals
  import opened Dates

  datatype Option<T> = None | Some(value: T)

  /** The ways the engine fails. The first six are IllegalArgumentExceptions with distinct
      messages; the last two are what the JVM throws on the paths noted. */
  datatype LoanError =
    | InvalidAmount            // "Loan amount must be positive."
    | InvalidDate              // "Loan date must be today or in the past."
    | InvalidInstallmentCount  // "Number of installments must be greater than 0."
    | InvalidInterestRate      // "Interest rate must be positive."
    | InvalidAmortizationType  // "Invalid amortization type: ..."
    | InvalidFrequency         // "Invalid frequency: ..."
    | NullValue                // NullPointerException: a null amortization type or frequency
    | DivisionByZero           // ArithmeticException from BigDecimal.divide by zero

  datatype Outcome = Pass | Fail(error: LoanError)

  datatype Result<T> = Ok(value: T) | Err(error: LoanError)

  /** The fields of LoanDto the engine reads; `None` is a null field. */
  datatype LoanRequest = LoanRequest(
    amount: Option<Decimal>,
    date: Option<LocalDate>,
    interestRate: Option<Decimal>,
    amortizationType: Option<string>,
    frequency: Option<string>,
    numberOfInstallments: Option<int>)

  /** The two amortization tags LoanService accepts. */
  const CapitalConstante: string := "CAPITAL_CONSTANTE"
  const PrestacoesConstantes: string := "PRESTACOES_CONSTANTES"

  // The five checks of validarParametros, each true when the parameter is acceptable.

  predicate AmountOk(req: LoanRequest) { req.amount.Some? && req.amount.value.unscaled > 0 }
  predicate DateOk(req: LoanRequest, today: LocalDate) { req.date.Some? && !Before(today, req.date.value) }
  predicate CountOk(req: LoanRequest) { req.numberOfInstallments.Some? && req.numberOfInstallments.value > 0 }
  predicate RateOk(req: LoanRequest) { req.interestRate.Some? && req.interestRate.value.unscaled > 0 }
  predicate TypeOk(req: LoanRequest)
  {
    req.amortizationType.Some? && req.amortizationType.value in [CapitalConstante, PrestacoesConstantes]
  }

  /** validarParametros, with `today` standing for LocalDate.now(). The checks run in order and
      the first one that fails decides the error. */
  function Validate(req: LoanRequest, today: LocalDate): (o: Outcome)
    ensures o == Pass <==>
      AmountOk(req) && DateOk(req, today) && CountOk(req) && RateOk(req) && TypeOk(req)
    ensures o == Fail(InvalidAmount) <==> !AmountOk(req)
    ensures o == Fail(InvalidDate) <==> AmountOk(req) && !DateOk(req, today)
    ensures o == Fail(InvalidInstallmentCount) <==>
      AmountOk(req) && DateOk(req, today) && !CountOk(req)
    ensures o == Fail(InvalidInterestRate) <==>
      AmountOk(req) && DateOk(req, today) && CountOk(req) && !RateOk(req)
    ensures o == Fail(NullValue) <==>
      AmountOk(req) && DateOk(req, today) && CountOk(req) && RateOk(req) && req.amortizationType.None?
    ensures o == Fail(InvalidAmortizationType) <==>
      AmountOk(req) && DateOk(req, today) && CountOk(req) && RateOk(req)
      && req.amortizationType.Some? && !TypeOk(req)
  {
    if req.amount.None? || req.amount.value.unscaled <= 0 then Fail(InvalidAmount)
    else if req.date.None? || Before(today, req.date.value) then Fail(InvalidDate)
    else if req.numberOfInstallments.None? || req.numberOfInstallments.value <= 0 then Fail(InvalidInstallmentCount)
    else if req.interestRate.None? || req.interestRate.value.unscaled <= 0 then Fail(InvalidInterestRate)
    // List.of(...).contains(null) throws NullPointerException
    else if req.amortizationType.None? then Fail(NullValue)
    else if req.amortizationType.value !in [CapitalConstante, PrestacoesConstantes] then Fail(InvalidAmortizationType)
    else Pass
  }

  /** A loan dated today passes the date check; one dated the day after today does not. */
  lemma DateBoundary(req: LoanRequest, today: LocalDate)
    requires AmountOk(req)
    ensures req.date == Some(today) ==> Validate(req, today) != Fail(InvalidDate)
    ensures req.date == Some(NextDay(today)) ==> Validate(req, today) == Fail(InvalidDate)
  {
  }
}
