/**
 * Jobs: applying draws one of sixteen listings and charges a uniform fee;
 * a shift, at most every thirty seconds, pays the salary (doubled and a
 * half, docked to 30%, or replaced by a fine) less 40% income tax;
 * quitting deletes the job and charges an exit fee.
 */
module Jobs {
  import opened Money
  import opened Ledger

  datatype Listing = Listing(title: string, salary: Mills)

  /** The listings a new hire is drawn from, salaries in mills. */
  const Listings: seq<Listing> := [
    Listing("Southbag Branch Greeter", 1000),
    Listing("ATM Apology Writer", 1500),
    Listing("Fee Explanation Specialist", 40),
    Listing("Complaint Ignorer", 60),
    Listing("Password Reset Denier", 2020),
    Listing("Queue Extension Coordinator", 1070),
    Listing("Hold Music DJ", 6000),
    Listing("Overdraft Celebration Planner", 50),
    Listing("Terms & Conditions Lengthener", 80),
    Listing("Customer Disappointment Analyst", 30),
    Listing("Lobby Floor Starer", 10),
    Listing("Senior Vice President of Nothing", 100000),
    Listing("Chief Vibes Officer", 9000),
    Listing("Intern (Unpaid)", 0),
    Listing("Executive Paper Shredder", 60),
    Listing("Vibe Coder", 2000)
  ]

  const UniformFee: Mills := 20
  const ExitFee: Mills := 50

  /** Milliseconds between two shifts. */
  const ShiftCooldown: int := 30000

  /** The listing a draw assigns, uniformly: every salary is a whole number of cents. */
  function Assign(r: Unit): (l: Listing)
    ensures l in Listings
    ensures WholeCents(l.salary) && 0 <= l.salary <= 100000
  {
    var i := PickIndex(r, |Listings|);
    ListingSalaries(i);
    Listings[i]
  }

  /** Each listed salary, case by case. */
  lemma ListingSalaries(i: nat)
    requires i < |Listings|
    ensures WholeCents(Listings[i].salary) && 0 <= Listings[i].salary <= 100000
  {
    var ss := [1000, 1500, 40, 60, 2020, 1070, 6000, 50, 80, 30, 10, 100000, 9000, 0, 60, 2000];
    assert Listings[i].salary == ss[i];
    assert forall k :: 0 <= k < |ss| ==> ss[k] % 10 == 0 && 0 <= ss[k] <= 100000;
  }

  // ---------------------------------------------------------------------
  // Apply

  datatype ApplyReply = ApplyReply(title: string, salary: Mills, uniformFee: Mills)

  /**
   * Rejects a user who already holds a job (reporting its title) before it
   * looks for the account; then draws a listing, hires at `now` with no
   * shift worked, and charges the uniform fee even into overdraft.
   */
  function Apply(s: Store, u: UserId, now: int, draw: Unit): (r: Result<Step<ApplyReply>>)
    ensures u in s.jobs ==> r == Err(AlreadyEmployed(s.jobs[u].title))
    ensures u !in s.jobs && u !in s.accounts ==> r == Err(NoAccount)
    ensures r.Ok? <==> u !in s.jobs && u in s.accounts
    ensures r.Ok? ==>
      var l := Assign(draw);
      var nb := RoundCents(s.accounts[u].balance - UniformFee);
      && r.value.reply == ApplyReply(l.title, l.salary, UniformFee)
      && r.value.store.jobs == s.jobs[u := Job(l.title, l.salary, now, 0)]
      && r.value.store.accounts == s.accounts[u := s.accounts[u].(balance := nb)]
      && r.value.store.transactions == s.transactions + [Transaction(u, Fee, -UniformFee, nb, now)]
      && r.value.store.loans == s.loans && r.value.store.holdings == s.holdings
      && r.value.store.policies == s.policies && r.value.store.heists == s.heists
  {
    if u in s.jobs then Err(AlreadyEmployed(s.jobs[u].title))
    else if u !in s.accounts then Err(NoAccount)
    else
      var l := Assign(draw);
      var nb := RoundCents(s.accounts[u].balance - UniformFee);
      Ok(Step(Post(s, u, nb, [Transaction(u, Fee, -UniformFee, nb, now)])
                .(jobs := s.jobs[u := Job(l.title, l.salary, now, 0)]),
              ApplyReply(l.title, l.salary, UniformFee)))
  }

  /** A second application is refused with the title just drawn, and a whole-cent balance loses exactly two cents. */
  lemma ApplyTwice(s: Store, u: UserId, now: int, later: int, d1: Unit, d2: Unit)
    requires Apply(s, u, now, d1).Ok?
    ensures Apply(Apply(s, u, now, d1).value.store, u, later, d2) == Err(AlreadyEmployed(Assign(d1).title))
    ensures WholeCents(s.accounts[u].balance) ==>
            Apply(s, u, now, d1).value.store.accounts[u].balance == s.accounts[u].balance - UniformFee
  {
    WholeCentsArith(s.accounts[u].balance, UniformFee);
  }

  lemma ApplyKeepsValid(s: Store, u: UserId, now: int, draw: Unit)
    requires Valid(s)
    ensures var r := Apply(s, u, now, draw); r.Ok? ==> Valid(r.value.store)
  {
    var r := Apply(s, u, now, draw);
    if r.Ok? {
      var nb := RoundCents(s.accounts[u].balance - UniformFee);
      PostKeepsAgreement(s, u, nb, [Transaction(u, Fee, -UniformFee, nb, now)]);
    }
  }

  // ---------------------------------------------------------------------
  // Work

  /** What a shift turns into: 10% overtime, 10% docked, 5% incident, else a regular shift. */
  datatype Shift = Overtime | Docked | Incident | Regular

  function ShiftOf(roll: Unit): (sh: Shift)
    ensures sh == Overtime <==> roll < 0.10
    ensures sh == Docked <==> 0.10 <= roll < 0.20
    ensures sh == Incident <==> 0.20 <= roll < 0.25
    ensures sh == Regular <==> 0.25 <= roll
  {
    if roll < 0.10 then Overtime
    else if roll < 0.20 then Docked
    else if roll < 0.25 then Incident
    else Regular
  }

  /** The gross pay of a paid shift: the salary, 2.5 times it, or 0.3 times it, to the nearest cent. */
  function Gross(sh: Shift, salary: Mills): (pay: Mills)
    requires sh != Incident
    ensures sh == Regular ==> pay == salary
    ensures sh == Overtime ==> WholeCents(pay) && 2 * pay - 10 <= 5 * salary < 2 * pay + 10
    ensures sh == Docked ==> WholeCents(pay) && 20 * pay - 100 <= 6 * salary < 20 * pay + 100
  {
    match sh
    case Overtime => RoundScaled(salary, 25, 10)
    case Docked => RoundScaled(salary, 3, 10)
    case Regular => salary
  }

  /** The 40% income tax on a gross pay, to the nearest cent. */
  function IncomeTax(pay: Mills): (tax: Mills)
    ensures WholeCents(tax)
    ensures 20 * tax - 100 <= 8 * pay < 20 * tax + 100
  {
    RoundScaled(pay, 40, 100)
  }

  /** On a whole-cent gross, the net and the tax are whole cents that add up to the gross. */
  lemma TaxSplit(pay: Mills)
    requires WholeCents(pay)
    ensures RoundCents(pay - IncomeTax(pay)) + IncomeTax(pay) == pay
    ensures pay >= 0 ==> 0 <= IncomeTax(pay) <= pay
  {
    WholeCentsArith(pay, IncomeTax(pay));
  }

  /** Whether the last shift, if there was one, is less than thirty seconds old (0 means never). */
  predicate CoolingDown(j: Job, now: int) {
    j.lastWorkedAt != 0 && now - j.lastWorkedAt < ShiftCooldown
  }

  datatype WorkReply =
    | IncidentReply(fine: Mills, newBalance: Mills, title: string)
    | ShiftReply(shift: Shift, gross: Mills, tax: Mills, net: Mills, newBalance: Mills, title: string)

  /**
   * Rejects a user without a job, then one without an account, then a
   * shift within thirty seconds of the last; a frozen account may work.
   * Otherwise the shift is worked.
   */
  function Work(s: Store, u: UserId, now: int, roll: Unit, fineDraw: Unit): (r: Result<Step<WorkReply>>)
    ensures u !in s.jobs ==> r == Err(NoJob)
    ensures u in s.jobs && u !in s.accounts ==> r == Err(NoAccount)
    ensures u in s.jobs && u in s.accounts ==>
      var j := s.jobs[u];
      && (CoolingDown(j, now) <==> r.Err?)
      && (CoolingDown(j, now) ==> r.error == Cooldown(SecondsUntil(ShiftCooldown - (now - j.lastWorkedAt))))
    ensures r.Ok? ==> u in s.jobs && u in s.accounts && r.value == Worked(s, u, now, roll, fineDraw)
  {
    if u !in s.jobs then Err(NoJob)
    else if u !in s.accounts then Err(NoAccount)
    else
      var j := s.jobs[u];
      if CoolingDown(j, now) then Err(Cooldown(SecondsUntil(ShiftCooldown - (now - j.lastWorkedAt))))
      else Ok(Worked(s, u, now, roll, fineDraw))
  }

  /**
   * A shift that passed the guards. An incident fines 0.01 to 0.11 with
   * one fee entry; any other shift credits the gross less tax, logging the
   * net as a deposit and the tax as a fee a millisecond later, both
   * carrying the new balance. Either way the shift is stamped.
   */
  function Worked(s: Store, u: UserId, now: int, roll: Unit, fineDraw: Unit): (st: Step<WorkReply>)
    requires u in s.jobs && u in s.accounts
    ensures
      var j := s.jobs[u];
      var a := s.accounts[u];
      var rep := st.reply;
      && st.store.jobs == s.jobs[u := j.(lastWorkedAt := now)]
      && st.store.accounts == s.accounts[u := a.(balance := rep.newBalance)]
      && SameRecords(s, st.store.(jobs := s.jobs))
      && (ShiftOf(roll) == Incident <==> rep.IncidentReply?)
      && (rep.IncidentReply? ==>
            && rep.fine == DrawCents(fineDraw, 1, 10)
            && 10 <= rep.fine <= 110
            && rep.newBalance == RoundCents(a.balance - rep.fine)
            && st.store.transactions == s.transactions + [Transaction(u, Fee, -rep.fine, rep.newBalance, now)])
      && (rep.ShiftReply? ==>
            && rep.shift == ShiftOf(roll)
            && rep.gross == Gross(rep.shift, j.salary)
            && rep.tax == IncomeTax(rep.gross)
            && rep.net == RoundCents(rep.gross - rep.tax)
            && rep.newBalance == RoundCents(a.balance + rep.net)
            && st.store.transactions == s.transactions + ShiftLog(u, rep.net, rep.tax, rep.newBalance, now))
      && rep.title == j.title
  {
    var j := s.jobs[u];
    var a := s.accounts[u];
    var sh := ShiftOf(roll);
    var jobs' := s.jobs[u := j.(lastWorkedAt := now)];
    if sh == Incident then
      var fine := DrawCents(fineDraw, 1, 10);
      var fb := RoundCents(a.balance - fine);
      Step(Post(s, u, fb, [Transaction(u, Fee, -fine, fb, now)]).(jobs := jobs'),
           IncidentReply(fine, fb, j.title))
    else
      var pay := Gross(sh, j.salary);
      var tax := IncomeTax(pay);
      var net := RoundCents(pay - tax);
      var nb := RoundCents(a.balance + net);
      Step(Post(s, u, nb, ShiftLog(u, net, tax, nb, now)).(jobs := jobs'),
           ShiftReply(sh, pay, tax, net, nb, j.title))
  }

  /** The net pay deposited at `now`, then the tax a millisecond later, both carrying the new balance. */
  function ShiftLog(u: UserId, net: Mills, tax: Mills, nb: Mills, now: int): (log: seq<Transaction>)
    ensures |log| == 2 && log[1].balanceAfter == nb
    ensures forall t :: t in log ==> t.userId == u
  {
    [Transaction(u, Deposit, net, nb, now), Transaction(u, Fee, -tax, nb, now + 1)]
  }

  /**
   * For a whole-cent balance and salary, a paid shift moves the balance by
   * exactly the net, and net plus tax is the gross; an incident takes
   * exactly the fine.
   */
  lemma WorkSettlesExactly(s: Store, u: UserId, now: int, roll: Unit, fineDraw: Unit)
    requires Work(s, u, now, roll, fineDraw).Ok?
    requires WholeCents(s.accounts[u].balance) && WholeCents(s.jobs[u].salary)
    ensures var rep := Work(s, u, now, roll, fineDraw).value.reply;
            var b := s.accounts[u].balance;
            && (rep.ShiftReply? ==> rep.net + rep.tax == rep.gross && rep.newBalance == b + rep.net)
            && (rep.IncidentReply? ==> rep.newBalance == b - rep.fine)
  {
    var rep := Work(s, u, now, roll, fineDraw).value.reply;
    var b := s.accounts[u].balance;
    if rep.ShiftReply? {
      TaxSplit(rep.gross);
      WholeCentsArith(b, rep.net);
    } else {
      WholeCentsArith(b, rep.fine);
    }
  }

  /** A fresh hire can work at once: the hire leaves no shift on record. */
  lemma HireCanWork(s: Store, u: UserId, now: int, later: int, draw: Unit, roll: Unit, fineDraw: Unit)
    requires Apply(s, u, now, draw).Ok?
    ensures Work(Apply(s, u, now, draw).value.store, u, later, roll, fineDraw).Ok?
  {
  }

  /** Right after a shift at a non-zero time, the next one within thirty seconds is refused. */
  lemma WorkThenCooldown(s: Store, u: UserId, now: int, later: int, roll: Unit, fineDraw: Unit, roll2: Unit, fineDraw2: Unit)
    requires Work(s, u, now, roll, fineDraw).Ok?
    requires now != 0 && now <= later < now + ShiftCooldown
    ensures Work(Work(s, u, now, roll, fineDraw).value.store, u, later, roll2, fineDraw2)
            == Err(Cooldown(SecondsUntil(ShiftCooldown - (later - now))))
  {
  }

  lemma WorkKeepsValid(s: Store, u: UserId, now: int, roll: Unit, fineDraw: Unit)
    requires Valid(s)
    ensures var r := Work(s, u, now, roll, fineDraw); r.Ok? ==> Valid(r.value.store)
  {
    if Work(s, u, now, roll, fineDraw).Ok? {
      WorkedKeepsValid(s, u, now, roll, fineDraw);
    }
  }

  lemma WorkedKeepsValid(s: Store, u: UserId, now: int, roll: Unit, fineDraw: Unit)
    requires Valid(s) && u in s.jobs && u in s.accounts
    ensures Valid(Worked(s, u, now, roll, fineDraw).store)
  {
    var st := Worked(s, u, now, roll, fineDraw);
    var rep := st.reply;
    var log := if rep.IncidentReply? then [Transaction(u, Fee, -rep.fine, rep.newBalance, now)]
               else ShiftLog(u, rep.net, rep.tax, rep.newBalance, now);
    assert st.store.transactions == s.transactions + log;
    PostKeepsValid(s, u, rep.newBalance, log);
    ValidIgnoresRecords(Post(s, u, rep.newBalance, log), st.store);
  }

  // ---------------------------------------------------------------------
  // Quit

  datatype QuitReply = QuitReply(title: string)

  /**
   * Rejects a user without a job; otherwise deletes the job, then charges
   * the exit fee if, and only if, the user has an account.
   */
  function Quit(s: Store, u: UserId, now: int): (r: Result<Step<QuitReply>>)
    ensures r.Err? <==> u !in s.jobs
    ensures r.Err? ==> r.error == NoJob
    ensures r.Ok? ==>
      && r.value.reply == QuitReply(s.jobs[u].title)
      && r.value.store.jobs == s.jobs - {u}
      && SameRecords(s, r.value.store.(jobs := s.jobs))
      && (u !in s.accounts ==>
            r.value.store.accounts == s.accounts && r.value.store.transactions == s.transactions)
      && (u in s.accounts ==>
            var nb := RoundCents(s.accounts[u].balance - ExitFee);
            && r.value.store.accounts == s.accounts[u := s.accounts[u].(balance := nb)]
            && r.value.store.transactions == s.transactions + [Transaction(u, Fee, -ExitFee, nb, now)])
  {
    if u !in s.jobs then Err(NoJob)
    else
      var jobs' := s.jobs - {u};
      if u in s.accounts then
        var nb := RoundCents(s.accounts[u].balance - ExitFee);
        Ok(Step(Post(s, u, nb, [Transaction(u, Fee, -ExitFee, nb, now)]).(jobs := jobs'),
                QuitReply(s.jobs[u].title)))
      else Ok(Step(s.(jobs := jobs'), QuitReply(s.jobs[u].title)))
  }

  /**
   * After quitting there is no job to work or quit, and applying again is
   * open to anyone with an account.
   */
  lemma QuitThenUnemployed(s: Store, u: UserId, now: int, later: int, roll: Unit, fineDraw: Unit, draw: Unit)
    requires Quit(s, u, now).Ok?
    ensures var s' := Quit(s, u, now).value.store;
            && Work(s', u, later, roll, fineDraw) == Err(NoJob)
            && Quit(s', u, later) == Err(NoJob)
            && (Apply(s', u, later, draw).Ok? <==> u in s.accounts)
  {
  }

  lemma QuitKeepsValid(s: Store, u: UserId, now: int)
    requires Valid(s)
    ensures var r := Quit(s, u, now); r.Ok? ==> Valid(r.value.store)
  {
    var r := Quit(s, u, now);
    if r.Ok? && u in s.accounts {
      var nb := RoundCents(s.accounts[u].balance - ExitFee);
      PostKeepsAgreement(s, u, nb, [Transaction(u, Fee, -ExitFee, nb, now)]);
    }
  }
}
