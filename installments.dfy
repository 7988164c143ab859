/** Installments of a loan and the status refresh that LoanService runs when a loan's details
    are read (getLoanDetailsWithInstallments): every A_TEMPO installment whose date has come
    becomes PENDENTE (due today) or VENCIDO (overdue); nothing else changes. */
module Installments {
  import opened Decimals
  import opened Dates

  /** Installment.InstallmentStatus. */
  datatype Status = ATempo | Pendente | Vencido | Pago | Cancelado

  /** What one pass of the refresh does to an installment with status `s` due on `due`: only
      A_TEMPO moves, to VENCIDO when the date has passed, to PENDENTE when it is today, and it
      stays A_TEMPO exactly while the date is later. */
  function NextStatus(s: Status, due: LocalDate, today: LocalDate): (r: Status)
    ensures s != ATempo ==> r == s
    ensures r == Vencido <==> s == Vencido || (s == ATempo && Before(due, today))
    ensures r == Pendente <==> s == Pendente || (s == ATempo && due == today)
    ensures r == ATempo <==> s == ATempo && Before(today, due)
  {
    Trichotomy(due, today);
    if s == ATempo then
      if Before(due, today) then Vencido
      else if due == today then Pendente
      else ATempo
    else s
  }

  /** Refreshing twice with the same today is refreshing once. */
  lemma NextStatusIdempotent(s: Status, due: LocalDate, today: LocalDate)
    ensures NextStatus(NextStatus(s, due, today), due, today) == NextStatus(s, due, today)
  {
  }

  /** Once an installment has left A_TEMPO no later refresh moves it, whatever the day:
      in particular a PENDENTE installment is never turned into VENCIDO. */
  lemma NextStatusFinal(s: Status, due: LocalDate, today: LocalDate, later: LocalDate)
    requires NextStatus(s, due, today) != ATempo
    ensures NextStatus(NextStatus(s, due, today), due, later) == NextStatus(s, due, today)
  {
  }

  /** Under an advancing today an A_TEMPO installment is still A_TEMPO only while its date lies ahead. */
  lemma NextStatusMonotone(due: LocalDate, today: LocalDate, later: LocalDate)
    requires !Before(later, today)
    requires NextStatus(ATempo, due, later) == ATempo
    ensures NextStatus(ATempo, due, today) == ATempo
  {
    Trichotomy(due, today);
    Trichotomy(due, later);
    Trichotomy(today, later);
    if Before(due, today) { BeforeTransitive(due, today, later); }
  }

  /** The Installment entity (the fields the engine reads or writes). */
  class Installment {
    var installmentNumber: int
    var installmentAmount: Decimal
    var installmentInterest: Decimal
    var installmentTotal: Decimal
    var installmentDate: LocalDate
    var installmentStatus: Status

    constructor (number: int, amount: Decimal, interest: Decimal, total: Decimal,
                 date: LocalDate, status: Status)
      ensures installmentNumber == number && installmentAmount == amount
      ensures installmentInterest == interest && installmentTotal == total
      ensures installmentDate == date && installmentStatus == status
    {
      installmentNumber, installmentAmount, installmentInterest := number, amount, interest;
      installmentTotal, installmentDate, installmentStatus := total, date, status;
    }
  }

  /** The Loan entity, reduced to its ordered list of installments. */
  class Loan {
    var installments: seq<Installment>

    constructor (installments: seq<Installment>)
      ensures this.installments == installments
    {
      this.installments := installments;
    }
  }

  /** The refresh loop of getLoanDetailsWithInstallments, with `today` for LocalDate.now().
      Each installment's status becomes NextStatus of its old status; only the status fields of
      the loan's installments may change; `updated` tells whether any of them did. The same
      installment object may occur more than once in the list. */
  method RefreshInstallmentStatuses(loan: Loan, today: LocalDate) returns (updated: bool)
    modifies loan.installments`installmentStatus
    ensures forall k :: 0 <= k < |loan.installments| ==>
      loan.installments[k].installmentStatus ==
        NextStatus(old(loan.installments[k].installmentStatus), loan.installments[k].installmentDate, today)
    ensures updated <==> (exists k :: 0 <= k < |loan.installments| &&
                           loan.installments[k].installmentStatus != old(loan.installments[k].installmentStatus))
  {
    var list := loan.installments;
    updated := false;
    for i := 0 to |list|
      invariant forall k :: 0 <= k < i ==>
        list[k].installmentStatus == NextStatus(old(list[k].installmentStatus), list[k].installmentDate, today)
      invariant forall k :: i <= k < |list| ==>
        list[k].installmentStatus == old(list[k].installmentStatus) ||
        exists j :: 0 <= j < i && list[j] == list[k]
      invariant updated <==>
        (exists k :: 0 <= k < i &&
           NextStatus(old(list[k].installmentStatus), list[k].installmentDate, today) != old(list[k].installmentStatus))
    {
      var installment := list[i];
      if installment.installmentStatus == ATempo {
        if Before(installment.installmentDate, today) {
          installment.installmentStatus := Vencido;
          updated := true;
        } else if today == installment.installmentDate {
          installment.installmentStatus := Pendente;
          updated := true;
        }
      }
    }
  }

  /** Reading a loan's details twice on the same day: the second refresh finds nothing to
      update, and the statuses are those a single refresh leaves. */
  method RefreshTwice(loan: Loan, today: LocalDate) returns (first: bool, second: bool)
    modifies loan.installments`installmentStatus
    ensures forall k :: 0 <= k < |loan.installments| ==>
      loan.installments[k].installmentStatus ==
        NextStatus(old(loan.installments[k].installmentStatus), loan.installments[k].installmentDate, today)
    ensures first <==> (exists k :: 0 <= k < |loan.installments| &&
                         loan.installments[k].installmentStatus != old(loan.installments[k].installmentStatus))
    ensures !second
  {
    first := RefreshInstallmentStatuses(loan, today);
    second := RefreshInstallmentStatuses(loan, today);
  }
}
