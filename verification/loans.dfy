/**
 * Payday loans: one active loan per user, between 0.10 and 10.00, with an
 * hourly rate drawn between 15% and 50% compounded continuously in time.
 *
 * `Math.pow` is not modelled: every operation that prices a loan takes the
 * power function as a parameter, and the lemmas state what they assume of
 * it.
 */
module Loans {
  import opened Money
  import opened Ledger

  const MinLoanAmount: Mills := 100
  const MaxLoanAmount: Mills := 10000

  /** Real exponentiation, `Math.pow(base, exponent)`. */
  type Power = (real, real) -> real

  /** Hours since the loan was taken, as a real (an hour is 3,600,000 ms). */
  function HoursSince(l: Loan, now: int): (h: real)
    ensures now >= l.takenAt ==> h >= 0.0
    ensures now == l.takenAt ==> h == 0.0
  {
    (now - l.takenAt) as real / 3600000.0
  }

  /** `Math.round(x)`: the nearest integer, halves upward. */
  function RoundReal(x: real): (n: int)
    ensures n as real - 0.5 <= x < n as real + 0.5
  {
    (x + 0.5).Floor
  }

  /** `Math.pow(1 + rate, hours)`: how much one unit owed has grown by `now`. */
  function Growth(l: Loan, now: int, power: Power): real {
    power(1.0 + l.ratePercent as real / 100.0, HoursSince(l, now))
  }

  /** An amount of `x` mills, given as a real, rounded to the nearest cent. */
  function NearestCent(x: real): (m: Mills)
    ensures WholeCents(m)
    ensures x - 5.0 < m as real <= x + 5.0
  {
    10 * RoundReal(x / 10.0)
  }

  /** Rounding to the cent never reverses an order. */
  lemma NearestCentMonotone(x: real, y: real)
    requires x <= y
    ensures NearestCent(x) <= NearestCent(y)
  {
    assert x / 10.0 <= y / 10.0;
  }

  /** A principal grown by the factor `g`, to the cent. */
  function GrownCents(principal: Mills, g: real): (m: Mills)
    ensures WholeCents(m)
  {
    NearestCent(principal as real * g)
  }

  /** Scaling by a non-negative factor keeps order. */
  lemma ScaleMonotone(p: real, a: real, b: real)
    requires p >= 0.0 && a <= b
    ensures p * a <= p * b
  {
    assert p * b - p * a == p * (b - a);
  }

  /** A non-negative principal grown by more is owed no less. */
  lemma GrownCentsMonotone(principal: Mills, g1: real, g2: real)
    requires principal >= 0 && g1 <= g2
    ensures GrownCents(principal, g1) <= GrownCents(principal, g2)
  {
    var x1 := principal as real * g1;
    var x2 := principal as real * g2;
    assert GrownCents(principal, g1) == NearestCent(x1);
    assert GrownCents(principal, g2) == NearestCent(x2);
    ScaleMonotone(principal as real, g1, g2);
    NearestCentMonotone(x1, x2);
  }

  /** A whole-cent principal grown by a factor of one is owed exactly. */
  lemma GrownCentsUnit(principal: Mills)
    requires WholeCents(principal)
    ensures GrownCents(principal, 1.0) == principal
  {
    var j := principal / 10;
    assert principal as real * 1.0 == principal as real;
    assert GrownCents(principal, 1.0) == NearestCent(principal as real);
    assert principal as real / 10.0 == j as real;
  }

  /** What the loan costs now: the principal grown by `(1 + rate)^hours`, rounded to the cent. */
  function Owed(l: Loan, now: int, power: Power): (m: Mills)
    ensures WholeCents(m)
  {
    GrownCents(l.principal, Growth(l, now, power))
  }

  /** With no time elapsed, and `x^0 = 1`, the loan costs exactly its whole-cent principal. */
  lemma OwedAtStart(l: Loan, power: Power)
    requires WholeCents(l.principal)
    requires power(1.0 + l.ratePercent as real / 100.0, 0.0) == 1.0
    ensures Owed(l, l.takenAt, power) == l.principal
  {
    assert Growth(l, l.takenAt, power) == 1.0;
    GrownCentsUnit(l.principal);
  }

  /** If the power grows with time, so does the debt of a non-negative principal. */
  lemma OwedGrows(l: Loan, t1: int, t2: int, power: Power)
    requires l.principal >= 0
    requires Growth(l, t1, power) <= Growth(l, t2, power)
    ensures Owed(l, t1, power) <= Owed(l, t2, power)
  {
    GrownCentsMonotone(l.principal, Growth(l, t1, power), Growth(l, t2, power));
  }

  // ---------------------------------------------------------------------
  // take

  datatype TakeReply = TakeReply(principal: Mills, ratePercent: int, totalOwed: Mills)

  /** The hourly rate in hundredths: a uniform whole-percent draw from 15 to 50. */
  function DrawRate(r: Unit): (p: int)
    ensures 15 <= p <= 50
  {
    DrawCents(r, 15, 35) / 10
  }

  /**
   * Rejects a missing or frozen account, an amount below 0.10 or above
   * 10.00, and a user who already has an active loan. Otherwise records
   * the loan with its rounded principal owed, and deposits the principal.
   */
  function Take(s: Store, u: UserId, amount: Mills, now: int, rateDraw: Unit): (r: Result<Step<TakeReply>>)
    ensures u !in s.accounts ==> r == Err(NoAccount)
    ensures u in s.accounts && s.accounts[u].status == Frozen ==> r == Err(AccountFrozen)
    ensures u in s.accounts && s.accounts[u].status != Frozen ==>
      && (amount < MinLoanAmount ==> r == Err(MinLoan))
      && (MinLoanAmount <= amount && amount > MaxLoanAmount ==> r == Err(MaxLoan))
      && (MinLoanAmount <= amount <= MaxLoanAmount ==> (r == Err(ExistingLoan) <==> ActiveLoan(s.loans, u).Some?))
    ensures u in s.accounts && s.accounts[u].status != Frozen ==>
      (MinLoanAmount <= amount <= MaxLoanAmount && ActiveLoan(s.loans, u).None? ==> r.Ok?)
    ensures r.Ok? ==>
      var principal := RoundCents(amount);
      var nb := RoundCents(s.accounts[u].balance + principal);
      && MinLoanAmount <= amount <= MaxLoanAmount && ActiveLoan(s.loans, u).None?
      && r.value.reply == TakeReply(principal, DrawRate(rateDraw), principal)
      && r.value.store == Post(s, u, nb, [Transaction(u, Deposit, principal, nb, now)])
                            .(loans := s.loans + [Loan(u, principal, DrawRate(rateDraw), principal, now, now, LoanActive)])
  {
    if u !in s.accounts then Err(NoAccount)
    else if s.accounts[u].status == Frozen then Err(AccountFrozen)
    else if amount < MinLoanAmount then Err(MinLoan)
    else if amount > MaxLoanAmount then Err(MaxLoan)
    else if ActiveLoan(s.loans, u).Some? then Err(ExistingLoan)
    else
      var rate := DrawRate(rateDraw);
      var principal := RoundCents(amount);
      var nb := RoundCents(s.accounts[u].balance + principal);
      var s1 := Post(s, u, nb, [Transaction(u, Deposit, principal, nb, now)]);
      Ok(Step(s1.(loans := s.loans + [Loan(u, principal, rate, principal, now, now, LoanActive)]), TakeReply(principal, rate, principal)))
  }

  /** After a loan is taken it is the user's active loan, and it costs its principal at once. */
  lemma TakeThenActive(s: Store, u: UserId, amount: Mills, now: int, rateDraw: Unit, power: Power)
    requires Take(s, u, amount, now, rateDraw).Ok?
    requires power(1.0 + DrawRate(rateDraw) as real / 100.0, 0.0) == 1.0
    ensures var s' := Take(s, u, amount, now, rateDraw).value.store;
            && ActiveLoan(s'.loans, u) == Some(|s.loans|)
            && Owed(s'.loans[|s.loans|], now, power) == RoundCents(amount)
  {
    var s' := Take(s, u, amount, now, rateDraw).value.store;
    assert forall k :: 0 <= k < |s.loans| ==> s'.loans[k] == s.loans[k];
    assert forall k :: 0 <= k < |s.loans| ==> !IsActiveLoanOf(s'.loans[k], u);
    assert IsActiveLoanOf(s'.loans[|s.loans|], u);
    OwedAtStart(s'.loans[|s.loans|], power);
  }

  lemma TakeKeepsValid(s: Store, u: UserId, amount: Mills, now: int, rateDraw: Unit)
    requires Valid(s)
    ensures var r := Take(s, u, amount, now, rateDraw); r.Ok? ==> Valid(r.value.store)
  {
    var r := Take(s, u, amount, now, rateDraw);
    if r.Ok? {
      var principal := RoundCents(amount);
      var nb := RoundCents(s.accounts[u].balance + principal);
      var l := Loan(u, principal, DrawRate(rateDraw), principal, now, now, LoanActive);
      assert AtMostOneActiveLoan(s.loans + [l]) by {
        AddLoanKeepsOne(s.loans, l);
      }
      PostLoansKeepsValid(s, u, nb, [Transaction(u, Deposit, principal, nb, now)], s.loans + [l]);
    }
  }

  // ---------------------------------------------------------------------
  // check

  /** `hoursSince` is reported in hundredths of an hour. */
  datatype CheckReply = CheckReply(principal: Mills, ratePercent: int, currentOwed: Mills, hundredthsOfHours: int,
                                   interestAccrued: Mills, takenAt: int, status: LoanStatus)

  /** The user's active loan priced now, or nothing when there is none. */
  function Check(s: Store, u: UserId, now: int, power: Power): (r: Option<CheckReply>)
    ensures r.None? <==> ActiveLoan(s.loans, u).None?
    ensures r.Some? ==>
      var l := s.loans[ActiveLoan(s.loans, u).value];
      && r.value.status == LoanActive && l.userId == u
      && r.value.principal == l.principal
      && r.value.currentOwed == Owed(l, now, power)
      && r.value.interestAccrued == RoundCents(r.value.currentOwed - l.principal)
      && r.value.hundredthsOfHours == RoundReal(HoursSince(l, now) * 100.0)
  {
    match ActiveLoan(s.loans, u)
    case None => None
    case Some(i) =>
      var l := s.loans[i];
      var owed := Owed(l, now, power);
      Some(CheckReply(l.principal, l.ratePercent, owed, RoundReal(HoursSince(l, now) * 100.0),
                      RoundCents(owed - l.principal), l.takenAt, l.status))
  }

  // ---------------------------------------------------------------------
  // repay

  datatype RepayReply = RepayReply(principal: Mills, totalPaid: Mills, interestPaid: Mills, newBalance: Mills)

  /** Closes the loan at `i` with the given status and final amount. */
  function CloseLoan(loans: seq<Loan>, i: nat, status: LoanStatus, owed: Mills): (ls: seq<Loan>)
    requires i < |loans|
    ensures |ls| == |loans| && ls[i].status == status && ls[i].totalOwed == owed && ls[i].userId == loans[i].userId
    ensures forall k :: 0 <= k < |loans| && k != i ==> ls[k] == loans[k]
  {
    loans[i := loans[i].(status := status, totalOwed := owed)]
  }

  /**
   * Rejects a user with no active loan, then a missing account, then a
   * balance below what is owed now. Otherwise debits the amount owed and
   * marks the loan paid. A frozen account may repay.
   */
  function Repay(s: Store, u: UserId, now: int, power: Power): (r: Result<Step<RepayReply>>)
    ensures ActiveLoan(s.loans, u).None? ==> r == Err(NoLoan)
    ensures ActiveLoan(s.loans, u).Some? && u !in s.accounts ==> r == Err(NoAccount)
    ensures ActiveLoan(s.loans, u).Some? && u in s.accounts ==>
      var i := ActiveLoan(s.loans, u).value;
      var owed := Owed(s.loans[i], now, power);
      var nb := RoundCents(s.accounts[u].balance - owed);
      && (r.Err? <==> s.accounts[u].balance < owed)
      && (r.Err? ==> r.error == Insufficient(s.accounts[u].balance, owed))
      && (r.Ok? ==>
            && r.value.reply == RepayReply(s.loans[i].principal, owed, RoundCents(owed - s.loans[i].principal), nb)
            && r.value.store == Post(s, u, nb, [Transaction(u, Withdrawal, -owed, nb, now)])
                                  .(loans := CloseLoan(s.loans, i, Paid, owed)))
  {
    match ActiveLoan(s.loans, u)
    case None => Err(NoLoan)
    case Some(i) =>
      if u !in s.accounts then Err(NoAccount)
      else
        var l := s.loans[i];
        var owed := Owed(l, now, power);
        var a := s.accounts[u];
        if a.balance < owed then Err(Insufficient(a.balance, owed))
        else
          var nb := RoundCents(a.balance - owed);
          var s1 := Post(s, u, nb, [Transaction(u, Withdrawal, -owed, nb, now)]);
          Ok(Step(s1.(loans := CloseLoan(s.loans, i, Paid, owed)), RepayReply(l.principal, owed, RoundCents(owed - l.principal), nb)))
  }

  /** Closing the only active loan of a user leaves the user without one. */
  lemma CloseLeavesNoActiveLoan(loans: seq<Loan>, u: UserId, status: LoanStatus, owed: Mills)
    requires AtMostOneActiveLoan(loans) && ActiveLoan(loans, u).Some? && status != LoanActive
    ensures var ls := CloseLoan(loans, ActiveLoan(loans, u).value, status, owed);
            && ActiveLoan(ls, u).None?
            && AtMostOneActiveLoan(ls)
  {
    var i := ActiveLoan(loans, u).value;
    var ls := CloseLoan(loans, i, status, owed);
    forall k | 0 <= k < |ls| ensures !IsActiveLoanOf(ls[k], u) {
      if k < i {
        assert loans[k].status == LoanActive ==> loans[k].userId != loans[i].userId;
      } else if k > i {
        assert loans[k].status == LoanActive ==> loans[i].userId != loans[k].userId;
      }
    }
  }

  /** A repaid user has no active loan left and may borrow again. */
  lemma RepayClearsLoan(s: Store, u: UserId, now: int, power: Power)
    requires Valid(s) && Repay(s, u, now, power).Ok?
    ensures ActiveLoan(Repay(s, u, now, power).value.store.loans, u).None?
  {
    CloseLeavesNoActiveLoan(s.loans, u, Paid, Owed(s.loans[ActiveLoan(s.loans, u).value], now, power));
  }

  lemma RepayKeepsValid(s: Store, u: UserId, now: int, power: Power)
    requires Valid(s)
    ensures var r := Repay(s, u, now, power); r.Ok? ==> Valid(r.value.store)
  {
    var r := Repay(s, u, now, power);
    if r.Ok? {
      var i := ActiveLoan(s.loans, u).value;
      var owed := Owed(s.loans[i], now, power);
      var nb := RoundCents(s.accounts[u].balance - owed);
      var ls := CloseLoan(s.loans, i, Paid, owed);
      assert AtMostOneActiveLoan(ls) by {
        CloseLeavesNoActiveLoan(s.loans, u, Paid, owed);
      }
      PostLoansKeepsValid(s, u, nb, [Transaction(u, Withdrawal, -owed, nb, now)], ls);
    }
  }

  // ---------------------------------------------------------------------
  // default

  /**
   * Rejects a user with no active loan, then a missing account. Otherwise
   * marks the loan defaulted at what is owed now, freezes the account, and
   * logs the debt as a fee whose snapshot is the unchanged balance.
   */
  function Default(s: Store, u: UserId, now: int, power: Power): (r: Result<Step<Mills>>)
    ensures ActiveLoan(s.loans, u).None? ==> r == Err(NoLoan)
    ensures ActiveLoan(s.loans, u).Some? && u !in s.accounts ==> r == Err(NoAccount)
    ensures r.Ok? ==>
      var i := ActiveLoan(s.loans, u).value;
      var owed := Owed(s.loans[i], now, power);
      var a := s.accounts[u];
      && ActiveLoan(s.loans, u).Some? && u in s.accounts
      && r.value.reply == owed
      && r.value.store.accounts == s.accounts[u := a.(status := Frozen)]
      && r.value.store.transactions == s.transactions + [Transaction(u, Fee, -owed, a.balance, now)]
      && r.value.store.loans == CloseLoan(s.loans, i, Defaulted, owed)
      && r.value.store.jobs == s.jobs && r.value.store.holdings == s.holdings
      && r.value.store.policies == s.policies && r.value.store.heists == s.heists
    ensures ActiveLoan(s.loans, u).Some? && u in s.accounts ==> r.Ok?
  {
    match ActiveLoan(s.loans, u)
    case None => Err(NoLoan)
    case Some(i) =>
      if u !in s.accounts then Err(NoAccount)
      else
        var owed := Owed(s.loans[i], now, power);
        var a := s.accounts[u];
        Ok(Step(s.(accounts := s.accounts[u := a.(status := Frozen)],
                   transactions := s.transactions + [Transaction(u, Fee, -owed, a.balance, now)],
                   loans := CloseLoan(s.loans, i, Defaulted, owed)), owed))
  }

  /** A defaulter is frozen, keeps the balance, and has no active loan left. */
  lemma DefaultFreezes(s: Store, u: UserId, now: int, power: Power)
    requires Valid(s) && Default(s, u, now, power).Ok?
    ensures var s' := Default(s, u, now, power).value.store;
            && s'.accounts[u].status == Frozen
            && s'.accounts[u].balance == s.accounts[u].balance
            && ActiveLoan(s'.loans, u).None?
  {
    CloseLeavesNoActiveLoan(s.loans, u, Defaulted, Owed(s.loans[ActiveLoan(s.loans, u).value], now, power));
  }

  lemma DefaultKeepsValid(s: Store, u: UserId, now: int, power: Power)
    requires Valid(s)
    ensures var r := Default(s, u, now, power); r.Ok? ==> Valid(r.value.store)
  {
    var r := Default(s, u, now, power);
    if r.Ok? {
      var i := ActiveLoan(s.loans, u).value;
      var owed := Owed(s.loans[i], now, power);
      var a := s.accounts[u];
      var txs := [Transaction(u, Fee, -owed, a.balance, now)];
      var ls := CloseLoan(s.loans, i, Defaulted, owed);
      assert AtMostOneActiveLoan(ls) by {
        CloseLeavesNoActiveLoan(s.loans, u, Defaulted, owed);
      }
      var a' := a.(status := Frozen);
      assert r.value.store == Post(s, u, a.balance, txs).(accounts := s.accounts[u := a'], loans := ls);
      PostPatchLoansKeepsValid(s, u, a.balance, txs, a', ls);
    }
  }
}
