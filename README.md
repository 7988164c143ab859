# mozcred loan amortization engine

A Dafny model of the schedule engine in `LoanService` of the mozcred loan application. From a
loan's amount, origination date, interest rate, amortization method, payment frequency and number
of installments, the engine builds the installment schedule. It also moves installments from
A_TEMPO to PENDENTE or VENCIDO when a loan's details are read.

The model has these parts:

- **Validation.** `validarParametros` checks the parameters in order and reports the first that
  fails.
- **Rate normalisation.** `calcularTaxaProporcional` divides the rate by 1, 2, 4 or 30 for the
  frequencies "mensal", "quinzenal", "semanal" and "diario". The result has 10 decimals, rounded
  HALF_UP.
- **Due dates.** `calcularDataParcela` adds i months, 2·i weeks, i weeks or i days to the loan date.
- **Two generators**, both imperative loops over a running balance that round every step to cents,
  HALF_UP:
  - the annuity method (`calcularPrestacoesConstantes`): a fixed installment
    P·r·f/(f−1), with f = (1+r)^n;
  - the straight-line method (`calcularCapitalConstante`): a constant principal P/n.
- **The dispatcher** `calcularAmortizacao`.
- **`createInstallmentDto`**: every generated row starts A_TEMPO.
- **The status refresh loop** of `getLoanDetailsWithInstallments`.

Modules:

- `Decimals`: BigDecimal as (unscaled, scale) with exact add, subtract, multiply and pow.
  `setScale` and `divide` round HALF_UP. Every rounding is proved to meet an independent
  characterisation `IsHalfUp`: the quotient rounded to the nearest integer, with ties away from
  zero.
- `Dates`: the proleptic Gregorian `LocalDate`, with isBefore/isAfter/isEqual, plusDays, plusWeeks
  and plusMonths. plusMonths clamps to the month's last day. The day ordinal `EpochDay` is the
  reference that the day-based additions are proved against.
- `LoanParameters`: the nullable DTO fields (as `Option`), the error kinds, and `Validate`.
- `Frequencies`: the frequency switch after `toLowerCase`, the proportional rate and the due dates.
- `Installments`: the `Installment` and `Loan` entities as classes, and the status refresh as a
  method that updates the installments' status fields in place.
- `Amortization`: the DTO row, the two generators (methods with `for` loops, each proved equal to
  a schedule defined by functions), properties of those schedules, and the dispatcher.
- `Scenarios`: worked cases stated on the model.

Every exception the engine throws is an `Err`/`Fail` value:

- an IllegalArgumentException becomes the error named by its message;
- a NullPointerException on a null amortization type or frequency becomes `NullValue`;
- BigDecimal's ArithmeticException on a zero divisor becomes `DivisionByZero`.

`LocalDate.now()` is the parameter `today`.

Two facts about the code that a reader might not expect:

- The installment with number 1 is due on the loan date itself, because `calcularDataParcela` gets
  index 0 for it. It is not due one period later. Scenarios.AnnuityRowsExample dates the third
  monthly installment of a loan from 2024-01-01 on 2024-03-01.
- A positive rate passes validation but can round to zero at 10 decimals. The annuity method then
  divides by f − 1 = 0 and throws. The validator does not exclude this case.

## Model

| member | source | states |
|---|---|---|
| Decimals.DivHalfUpCorrect | src/main/java/com/ap/mozcred/services/LoanService.java:34 | integer HALF_UP division rounds n/d to the nearest integer with ties away from zero, and keeps the sign of n |
| Decimals.HalfUpUnique | src/main/java/com/ap/mozcred/services/LoanService.java:34 | the HALF_UP characterisation determines the rounded quotient uniquely |
| Decimals.HalfUpError | src/main/java/com/ap/mozcred/services/LoanService.java:34 | a HALF_UP quotient is within half the divisor of the exact quotient |
| Decimals.Add | src/main/java/com/ap/mozcred/services/LoanService.java:204 | add is exact and its scale is the larger of the two scales (value: Decimals.AddExact) |
| Decimals.AddExact | src/main/java/com/ap/mozcred/services/LoanService.java:231 | x + y denotes exactly (ux·10^sy + uy·10^sx) / (10^sx·10^sy) |
| Decimals.Sub | src/main/java/com/ap/mozcred/services/LoanService.java:206 | subtract is exact and its scale is the larger of the two scales (value: Decimals.SubExact) |
| Decimals.SubExact | src/main/java/com/ap/mozcred/services/LoanService.java:213-214 | x − y denotes exactly (ux·10^sy − uy·10^sx) / (10^sx·10^sy) |
| Decimals.MulExact | src/main/java/com/ap/mozcred/services/LoanService.java:205 | multiply is exact: x·y denotes (ux·uy) / (10^sx·10^sy) |
| Decimals.PowExact | src/main/java/com/ap/mozcred/services/LoanService.java:204 | pow(n) is exact: x^n denotes ux^n / (10^sx)^n |
| Decimals.SetScale | src/main/java/com/ap/mozcred/services/LoanService.java:212-214 | setScale(s) returns a value with scale s (its value: Decimals.SetScaleRounds) |
| Decimals.SetScaleRounds | src/main/java/com/ap/mozcred/services/LoanService.java:212-214 | setScale(s, HALF_UP) is x·10^s rounded HALF_UP, for both growing and shrinking scales |
| Decimals.Divide | src/main/java/com/ap/mozcred/services/LoanService.java:205-206 | divide(y, s, HALF_UP) returns a value with scale s (its value: Decimals.DivideRounds) |
| Decimals.DivideRounds | src/main/java/com/ap/mozcred/services/LoanService.java:205-206 | divide(y, s, HALF_UP) rounds the exact quotient x/y at s digits HALF_UP, for a positive or a negative divisor |
| Dates.PlusMonths | src/main/java/com/ap/mozcred/services/LoanService.java:281 | plusMonths lands exactly k months later; the day is kept, or clamped to the last day of the target month |
| Dates.EpochDayPlusDays | src/main/java/com/ap/mozcred/services/LoanService.java:284 | plusDays(k) advances the day ordinal by exactly k |
| Dates.PlusDaysSplit | src/main/java/com/ap/mozcred/services/LoanService.java:282-284 | adding a + b days is adding a days and then b |
| Dates.BeforeIffEpochDay | src/main/java/com/ap/mozcred/services/LoanService.java:58-62 | isAfter/isBefore and isEqual agree with the order and equality of day ordinals |
| Dates.PlusDaysIncreasing | src/main/java/com/ap/mozcred/services/LoanService.java:284 | more days added gives a strictly later date |
| LoanParameters.Validate | src/main/java/com/ap/mozcred/services/LoanService.java:251-267 | Pass iff all five checks hold; each error is reported exactly when every earlier check holds and its own fails; a null type is a NullPointerException |
| LoanParameters.DateBoundary | src/main/java/com/ap/mozcred/services/LoanService.java:255-257 | a loan dated today passes the date check; one dated tomorrow fails it |
| Frequencies.ParseFrequency | src/main/java/com/ap/mozcred/services/LoanService.java:270-276 | each frequency is selected iff the lower-cased string is its tag |
| Frequencies.ToLower | src/main/java/com/ap/mozcred/services/LoanService.java:270 | toLowerCase keeps the length and lower-cases each character on its own (ASCII letters; see Left out) |
| Frequencies.ParseIgnoresCase | src/main/java/com/ap/mozcred/services/LoanService.java:270 | a string and its lower-case form select the same frequency |
| Frequencies.EnumNamesRecognised | src/main/java/com/ap/mozcred/entities/Loan.java:57-59 | the stored enum names MENSAL, QUINZENAL, SEMANAL and DIARIO are recognised by the switch |
| Frequencies.ProportionalRate | src/main/java/com/ap/mozcred/services/LoanService.java:269-277 | an error (InvalidFrequency) exactly for an unrecognised frequency; otherwise a value with 10 decimals |
| Frequencies.ProportionalRateRounds | src/main/java/com/ap/mozcred/services/LoanService.java:271-274 | the proportional rate is annualRate / divisor rounded HALF_UP to 10 decimals |
| Frequencies.ProportionalRateNonNegative | src/main/java/com/ap/mozcred/services/LoanService.java:271-274 | a positive rate gives a proportional rate that is never negative |
| Frequencies.InstallmentDate | src/main/java/com/ap/mozcred/services/LoanService.java:279-287 | an error (InvalidFrequency) exactly for an unrecognised frequency; otherwise the due date for the parsed frequency |
| Frequencies.DueDate | src/main/java/com/ap/mozcred/services/LoanService.java:280-285 | monthly: exactly i months later, day kept or clamped to the month's end; biweekly, weekly, daily: i·14, i·7 or i days later |
| Frequencies.DueDateFirst | src/main/java/com/ap/mozcred/services/LoanService.java:281-284 | index 0 falls on the loan date for every frequency |
| Frequencies.DueDateAdvance | src/main/java/com/ap/mozcred/services/LoanService.java:281-284 | index i lies i·14, i·7 or i days after the loan date (biweekly, weekly, daily), or i months later (monthly) |
| Frequencies.DueDatesIncreasing | src/main/java/com/ap/mozcred/services/LoanService.java:281-284 | later indices fall on strictly later dates |
| Installments.NextStatus | src/main/java/com/ap/mozcred/services/LoanService.java:57-66 | only A_TEMPO moves; the result is VENCIDO iff it was VENCIDO or A_TEMPO with the date passed, PENDENTE iff it was PENDENTE or A_TEMPO due today, A_TEMPO iff it was A_TEMPO with the date still ahead |
| Installments.NextStatusIdempotent | src/main/java/com/ap/mozcred/services/LoanService.java:55-68 | refreshing twice on the same day is refreshing once |
| Installments.NextStatusFinal | src/main/java/com/ap/mozcred/services/LoanService.java:57 | a status other than A_TEMPO is never changed by a later refresh |
| Installments.NextStatusMonotone | src/main/java/com/ap/mozcred/services/LoanService.java:57-66 | if an installment is still A_TEMPO on a later day, it was A_TEMPO on every earlier day |
| Installments.RefreshInstallmentStatuses | src/main/java/com/ap/mozcred/services/LoanService.java:55-68 | every installment's new status is the transition of its old one; only status fields change; `updated` is true iff some status changed |
| Installments.RefreshTwice | src/main/java/com/ap/mozcred/services/LoanService.java:55-68 | a second refresh on the same day reports no update, and the statuses are those one refresh leaves |
| Amortization.CreateInstallmentDto | src/main/java/com/ap/mozcred/services/LoanService.java:240-249 | the row carries the given number, date, principal, interest and total, and its status is A_TEMPO |
| Amortization.Interest | src/main/java/com/ap/mozcred/services/LoanService.java:212 | the interest is in cents (scale 2); its value: Amortization.InterestRounds |
| Amortization.InterestRounds | src/main/java/com/ap/mozcred/services/LoanService.java:212 | the interest is balance × rate rounded HALF_UP to cents, and is non-negative on non-negative inputs |
| Amortization.FixedInstallment | src/main/java/com/ap/mozcred/services/LoanService.java:204-206 | the only failure is the division by zero; a fixed installment has 2 decimals |
| Amortization.FixedInstallmentValue | src/main/java/com/ap/mozcred/services/LoanService.java:204-206 | for a non-negative rate, it fails iff n = 0 or the rate is 0; otherwise the installment is P·r·f/(f−1) rounded HALF_UP to cents, with f = (1+r)^n |
| Amortization.AnnuityPrincipal | src/main/java/com/ap/mozcred/services/LoanService.java:213 | the principal is in cents and, for a fixed installment in cents, exactly the fixed installment less the interest |
| Amortization.AnnuityBalance | src/main/java/com/ap/mozcred/services/LoanService.java:209-214 | the balance before the first period is the amount; after every period it is in cents |
| Amortization.ConstantInstallments | src/main/java/com/ap/mozcred/services/LoanService.java:203-220 | the loop returns exactly the annuity schedule the spec functions define, or DivisionByZero when the fixed installment fails |
| Amortization.AnnuityRowsShape | src/main/java/com/ap/mozcred/services/LoanService.java:211-218 | n rows numbered 1..n on their due dates, all A_TEMPO, total = fixed installment, and principal + interest = fixed installment to the cent |
| Amortization.AnnuityBalanceTelescopes | src/main/java/com/ap/mozcred/services/LoanService.java:213-214 | for an amount with at most 2 decimals, the balance before period k is the amount minus the principal of the first k rows |
| Amortization.ConstantPrincipalAmount | src/main/java/com/ap/mozcred/services/LoanService.java:223-224 | it fails (DivisionByZero) iff n = 0; otherwise the constant principal has 2 decimals |
| Amortization.ConstantPrincipalRounds | src/main/java/com/ap/mozcred/services/LoanService.java:223-224 | the constant principal is amount / n rounded HALF_UP to cents |
| Amortization.StraightLineBalance | src/main/java/com/ap/mozcred/services/LoanService.java:227-232 | the balance before the first period is the amount; after every period it is in cents |
| Amortization.ConstantPrincipal | src/main/java/com/ap/mozcred/services/LoanService.java:222-238 | the loop returns exactly the straight-line schedule the spec functions define, or DivisionByZero for n = 0 |
| Amortization.StraightLineRowsShape | src/main/java/com/ap/mozcred/services/LoanService.java:229-236 | n rows numbered 1..n on their due dates, all A_TEMPO, principal = the constant principal, total = principal + interest to the cent |
| Amortization.StraightLineBalanceValue | src/main/java/com/ap/mozcred/services/LoanService.java:232 | for an amount with at most 2 decimals, the balance before period k is the amount minus k constant principals |
| Amortization.StraightLineCloses | src/main/java/com/ap/mozcred/services/LoanService.java:223-232 | the final balance is the amount minus n rounded principals, and within n half-cents of zero |
| Amortization.AnnuityScheduleShape | src/main/java/com/ap/mozcred/services/LoanService.java:216-217 | annuity row k carries number k+1, the date calcularDataParcela gives for index k, and A_TEMPO; the first row falls on the loan date |
| Amortization.StraightLineScheduleShape | src/main/java/com/ap/mozcred/services/LoanService.java:234-235 | the same for straight-line rows |
| Amortization.ComputeAmortization | src/main/java/com/ap/mozcred/services/LoanService.java:191-200 | see below |
| Scenarios.AnnuityPaymentExample | src/main/java/com/ap/mozcred/services/LoanService.java:204-206 | 1000.00 at 5% over 3 periods gives a fixed installment of 367.21 |
| Scenarios.AnnuityBalancesExample | src/main/java/com/ap/mozcred/services/LoanService.java:211-214 | in that case the balances are 682.79, 349.72 and exactly 0.00 |
| Scenarios.AnnuityRowsExample | src/main/java/com/ap/mozcred/services/LoanService.java:211-218 | in that case the interest is 50.00, 34.14 and 17.49, the principal 317.21, 333.07 and 349.72, and the dates run 2024-01-01 to 2024-03-01 |
| Scenarios.AnnuityClosureGapExample | src/main/java/com/ap/mozcred/services/LoanService.java:204-214 | 1.00 at 89% over 3 periods: fixed installment 1.04, balances 0.85, 0.57 and finally 0.04, more than a cent per installment |
| Scenarios.StraightLinePrincipalExample | src/main/java/com/ap/mozcred/services/LoanService.java:223-224 | 900.00 over 3 installments gives a constant principal of 300.00 |
| Scenarios.StraightLineTotalsExample | src/main/java/com/ap/mozcred/services/LoanService.java:229-236 | at 10% the straight-line totals are 390.00, 360.00 and 330.00 |
| Scenarios.WeeklyDueDateExample | src/main/java/com/ap/mozcred/services/LoanService.java:283 | "SEMANAL" index 3 from 2024-01-15 falls on 2024-02-05 |
| Scenarios.RefreshExample | src/main/java/com/ap/mozcred/services/LoanService.java:57-66 | on 2024-03-10 an installment due 03-05 becomes VENCIDO, one due 03-10 PENDENTE, one due 03-15 stays A_TEMPO, and PAGO stays PAGO |
| Scenarios.ValidateExamples | src/main/java/com/ap/mozcred/services/LoanService.java:251-267 | a well-formed request passes; a zero amount, a future date, a count of zero and an unknown tag fail with their own errors |
| Scenarios.RateRoundsToZeroExample | src/main/java/com/ap/mozcred/services/LoanService.java:193-206 | a rate of 1e-11 passes validation, rounds to 0 at 10 decimals, and the annuity method then fails with DivisionByZero |

The contract of Amortization.ComputeAmortization states:

- It returns the validator's error when validation fails.
- It returns `NullValue` for a null frequency and `InvalidFrequency` for an unknown one.
- For accepted parameters and the annuity tag:
  - `DivisionByZero` when the proportional rate is 0;
  - otherwise exactly the annuity schedule with the fixed installment.
- For the straight-line tag, exactly the straight-line schedule.
- Any schedule it returns comes from accepted parameters. It has n rows numbered 1..n, each on the
  date calcularDataParcela gives and each A_TEMPO, and the first row falls on the loan date.

## Left out

- Persistence and mapping are not modelled: the repositories, `save`, `buildLoanFromDto`,
  `buildInstallmentsFromDtos`, `mapToLoanDto`, `mapToInstallmentDto` (with its `daysDifference`
  from the clock), `findAll`, `findLoanById`, `searchClientsByName`, `criarEmprestimo`'s client
  lookup, and logging. They are I/O around the engine.
- `LocalDate.now()` is not called; callers pass it as the parameter `today`.
- Java `int` arithmetic is not modelled. The count and the index are unbounded, so the overflow of
  `installmentNumber * 2` beyond 2^30 is not modelled.
- `BigDecimal.pow(n)` throws an ArithmeticException for n beyond 999999999, and also when the new
  scale, the rate's scale times n, overflows `int`. The proportional rate has scale 10, so the
  annuity method throws for every n above 214748364. Neither is modelled: Amortization.FixedInstallment
  succeeds for those counts, and a schedule that long cannot be built in memory anyway.
- `LocalDate`'s year range (±999999999) and its DateTimeException are not modelled. Years are
  unbounded.
- `String.toLowerCase()` uses the JVM's default locale; the model assumes a locale whose case
  mapping is that of `Locale.ROOT` (any locale other than Turkish or Azerbaijani). Under `tr` or `az`,
  'I' lower-cases to the dotless 'ı' (U+0131), so "DIARIO" and "QUINZENAL" become "dıarıo" and
  "quınzenal" and throw "Invalid frequency", while 'İ' (U+0130) lower-cases to 'i'.
- Frequencies.ToLower: modelled for ASCII letters only. Under the root case mapping no other
  character lower-cases into one of the four tags: the Kelvin sign only reaches 'k', which no tag
  contains, and 'İ' becomes 'i' followed by a combining dot, which no tag contains either.
- Frequencies.EnumNamesRecognised: holds under the root case mapping assumed above, not under a
  Turkish or Azerbaijani default locale.
- Negative BigDecimal scales are not modelled; scales are `nat`. An amount or rate parsed from text
  such as "1e3" has a negative scale. The engine's outputs are rounded to a fixed scale, and
  divide and setScale depend only on the values, so such an input yields the same schedule as the
  same value written at scale 0.
- The annuity method's final balance need not lie within 0.01 per installment of zero: the
  rounding of the fixed installment is repaid n times and the interest roundings compound through
  the balance. Scenarios.AnnuityClosureGapExample proves a case that leaves 0.04 after 3
  installments. What is proved in general is the exact telescoping identity,
  Amortization.AnnuityBalanceTelescopes; Scenarios.AnnuityBalancesExample is a case that closes at 0.00.
- Amortization.AnnuityBalanceTelescopes: stated only for amounts with at most 2 decimals. With more
  decimals, the first setScale(2) of the balance loses the extra digits.
- Amortization.StraightLineBalanceValue: stated only for amounts with at most 2 decimals, for the
  same reason.
- Amortization.StraightLineCloses: stated only for amounts with at most 2 decimals, for the same
  reason.
- Amortization.ConstantInstallments: takes the parsed frequency, not the frequency string. These
  private methods are only reached after the frequency string has parsed.
- Amortization.ConstantPrincipal: takes the parsed frequency, not the frequency string, for the same
  reason.
