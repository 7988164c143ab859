/** The two frequency-driven helpers of LoanService: the proportional-rate normaliser
    (calcularTaxaProporcional) and the due-date scheduler (calcularDataParcela). Both match the
    frequency string after String.toLowerCase() against "mensal", "quinzenal", "semanal" and
    "diario", and throw on any other string. */
module Frequencies {
  import opened Decimals
  import opened Dates
  import opened LoanParameters

  datatype Frequency = Mensal | Quinzenal | Semanal | Diario

  /** Upper-case Latin letters to lower case; every other character stays. */
  function LowerChar(c: char): char
  {
    if 'A' <= c <= 'Z' then (c as int + 32) as char else c
  }

  /** String.toLowerCase on the characters that can matter for the four tags. */
  function ToLower(s: string): (r: string)
    ensures |r| == |s|
    ensures forall i :: 0 <= i < |s| ==> r[i] == LowerChar(s[i])
  {
    if s == [] then [] else [LowerChar(s[0])] + ToLower(s[1..])
  }

  lemma ToLowerIdempotent(s: string)
    ensures ToLower(ToLower(s)) == ToLower(s)
  {
  }

  /** The switch on `frequency.toLowerCase()` shared by both helpers. */
  function ParseFrequency(s: string): (f: Option<Frequency>)
    ensures f == Some(Mensal) <==> ToLower(s) == "mensal"
    ensures f == Some(Quinzenal) <==> ToLower(s) == "quinzenal"
    ensures f == Some(Semanal) <==> ToLower(s) == "semanal"
    ensures f == Some(Diario) <==> ToLower(s) == "diario"
  {
    var t := ToLower(s);
    if t == "mensal" then Some(Mensal)
    else if t == "quinzenal" then Some(Quinzenal)
    else if t == "semanal" then Some(Semanal)
    else if t == "diario" then Some(Diario)
    else None
  }

  /** The match ignores case: a string and its lower-case form select the same rule. */
  lemma ParseIgnoresCase(s: string)
    ensures ParseFrequency(ToLower(s)) == ParseFrequency(s)
  {
    ToLowerIdempotent(s);
  }

  /** The names of the Loan.Frequency enum, as the entity stores them, are all recognised. */
  lemma EnumNamesRecognised()
    ensures ParseFrequency("MENSAL") == Some(Mensal)
    ensures ParseFrequency("QUINZENAL") == Some(Quinzenal)
    ensures ParseFrequency("SEMANAL") == Some(Semanal)
    ensures ParseFrequency("DIARIO") == Some(Diario)
  {
    LowerMensal();
    LowerQuinzenal();
    LowerSemanal();
    LowerDiario();
  }

  lemma LowerMensal() ensures ToLower("MENSAL") == "mensal" { LowerOf("MENSAL", "mensal"); }
  lemma LowerQuinzenal() ensures ToLower("QUINZENAL") == "quinzenal" { LowerOf("QUINZENAL", "quinzenal"); }
  lemma LowerSemanal() ensures ToLower("SEMANAL") == "semanal" { LowerOf("SEMANAL", "semanal"); }
  lemma LowerDiario() ensures ToLower("DIARIO") == "diario" { LowerOf("DIARIO", "diario"); }

  lemma LowerOf(s: string, t: string)
    requires |s| == |t| && forall i :: 0 <= i < |s| ==> LowerChar(s[i]) == t[i]
    ensures ToLower(s) == t
  {
  }

  /** The divisor applied to the rate for each frequency. */
  function Divisor(f: Frequency): int
  {
    match f
    case Mensal => 1
    case Quinzenal => 2
    case Semanal => 4
    case Diario => 30
  }

  /** calcularTaxaProporcional: the rate divided by 1, 2, 4 or 30, with 10 fractional digits,
      HALF_UP; an unknown frequency is an error. */
  function ProportionalRate(annualRate: Decimal, frequency: string): (r: Result<Decimal>)
    ensures r.Err? <==> ParseFrequency(frequency).None?
    ensures r.Err? ==> r.error == InvalidFrequency
    ensures r.Ok? ==> r.value.scale == 10
  {
    match ParseFrequency(frequency)
    case None => Err(InvalidFrequency)
    case Some(f) => Ok(Divide(annualRate, Decimal(Divisor(f), 0), 10))
  }

  /** The proportional rate is the annual rate over the divisor, rounded half up to 10 digits. */
  lemma ProportionalRateRounds(annualRate: Decimal, frequency: string)
    requires ParseFrequency(frequency).Some?
    ensures IsHalfUp(annualRate.unscaled * Pow10(10),
                     Divisor(ParseFrequency(frequency).value) * Pow10(annualRate.scale),
                     ProportionalRate(annualRate, frequency).value.unscaled)
  {
    DivideRounds(annualRate, Decimal(Divisor(ParseFrequency(frequency).value), 0), 10);
  }

  /** A positive rate gives a non-negative proportional rate (it may round to zero). */
  lemma ProportionalRateNonNegative(annualRate: Decimal, frequency: string)
    requires annualRate.unscaled > 0 && ParseFrequency(frequency).Some?
    ensures ProportionalRate(annualRate, frequency).value.unscaled >= 0
  {
    var f := ParseFrequency(frequency).value;
    MulStrict(0, Divisor(f), Pow10(annualRate.scale));
    MulStrict(0, annualRate.unscaled, Pow10(10));
    ProportionalRateRounds(annualRate, frequency);
    HalfUpNonNegative(annualRate.unscaled * Pow10(10), Divisor(f) * Pow10(annualRate.scale),
                      ProportionalRate(annualRate, frequency).value.unscaled);
  }

  /** The due date of the installment with 0-based index i: i months later for the monthly
      frequency, i periods of PeriodDays(f) days later for the others. */
  function DueDate(date: LocalDate, i: nat, f: Frequency): (r: LocalDate)
    ensures f == Mensal ==> MonthIndex(r) == MonthIndex(date) + i
    ensures f == Mensal ==> r.day <= date.day && (r.day < date.day ==> r.day == DaysInMonth(r.year, r.month))
    ensures f != Mensal ==> r == PlusDays(date, i * PeriodDays(f))
  {
    match f
    case Mensal => PlusMonths(date, i)
    case Quinzenal => assert 7 * (2 * i) == i * 14; PlusWeeks(date, 2 * i)
    case Semanal => assert 7 * i == i * 7; PlusWeeks(date, i)
    case Diario => PlusDays(date, i)
  }

  /** calcularDataParcela. */
  function InstallmentDate(date: LocalDate, i: nat, frequency: string): (r: Result<LocalDate>)
    ensures r.Err? <==> ParseFrequency(frequency).None?
    ensures r.Err? ==> r.error == InvalidFrequency
    ensures r.Ok? ==> r.value == DueDate(date, i, ParseFrequency(frequency).value)
  {
    match ParseFrequency(frequency)
    case None => Err(InvalidFrequency)
    case Some(f) => Ok(DueDate(date, i, f))
  }

  /** Index 0 is the loan date itself, whatever the frequency. */
  lemma DueDateFirst(date: LocalDate, f: Frequency)
    ensures DueDate(date, 0, f) == date
  {
  }

  /** Days per period of the day-based frequencies. */
  function PeriodDays(f: Frequency): nat
    requires f != Mensal
  {
    match f
    case Quinzenal => 14
    case Semanal => 7
    case Diario => 1
  }

  /** The day-based frequencies advance the day ordinal by a fixed number of days per period;
      the monthly one advances the month by one per period. */
  lemma DueDateAdvance(date: LocalDate, i: nat, f: Frequency)
    ensures f != Mensal ==> EpochDay(DueDate(date, i, f)) == EpochDay(date) + i * PeriodDays(f)
    ensures f == Mensal ==> MonthIndex(DueDate(date, i, f)) == MonthIndex(date) + i
  {
    if f != Mensal {
      EpochDayPlusDays(date, i * PeriodDays(f));
    }
  }

  /** Later installments fall on strictly later dates. */
  lemma DueDatesIncreasing(date: LocalDate, i: nat, j: nat, f: Frequency)
    requires i < j
    ensures Before(DueDate(date, i, f), DueDate(date, j, f))
  {
    match f
    case Mensal => MonthIndexBefore(DueDate(date, i, f), DueDate(date, j, f));
    case Quinzenal => PlusDaysIncreasing(date, 7 * (2 * i), 7 * (2 * j));
    case Semanal => PlusDaysIncreasing(date, 7 * i, 7 * j);
    case Diario => PlusDaysIncreasing(date, i, j);
  }
}
