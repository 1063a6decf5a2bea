/**
 * Begging: once a minute, a draw decides between nothing, a few mills, a
 * few cents, a charge, or a small jackpot. Begging works in mills, so it
 * is the one handler that leaves sub-cent balances behind.
 */
module Begging {
  import opened Money
  import opened Ledger

  /** Milliseconds between two begs. */
  const BegCooldown: int := 60000

  datatype Outcome = Denied | Tiny | Decent | Reverse | Jackpot

  /** The outcome bands: 50% denied, 20% tiny, 15% decent, 10% reverse, 5% jackpot. */
  function OutcomeOf(roll: Unit): (o: Outcome)
    ensures o == Denied <==> roll < 0.5
    ensures o == Tiny <==> 0.5 <= roll < 0.7
    ensures o == Decent <==> 0.7 <= roll < 0.85
    ensures o == Reverse <==> 0.85 <= roll < 0.95
    ensures o == Jackpot <==> 0.95 <= roll
  {
    if roll < 0.5 then Denied
    else if roll < 0.7 then Tiny
    else if roll < 0.85 then Decent
    else if roll < 0.95 then Reverse
    else Jackpot
  }

  /** A uniform draw in [low, low + span] mills, rounded to the mill. */
  function DrawMills(r: Unit, low: int, span: nat): (m: Mills)
    ensures low <= m <= low + span
  {
    (Scale(r, span) + low as real + 0.5).Floor
  }

  /**
   * The amount an outcome is worth: nothing when denied, 0.001 to 0.010
   * when tiny, 0.01 to 0.05 when decent or reversed, 0.10 to 0.50 as a
   * jackpot. Only the tiny amount carries mills.
   */
  function Amount(o: Outcome, r: Unit): (m: Mills)
    ensures o == Denied <==> m == 0
    ensures o == Tiny ==> 1 <= m <= 10
    ensures (o == Decent || o == Reverse) ==> 10 <= m <= 50 && WholeCents(m)
    ensures o == Jackpot ==> 100 <= m <= 500 && WholeCents(m)
  {
    match o
    case Denied => 0
    case Tiny => DrawMills(r, 1, 9)
    case Decent => DrawCents(r, 1, 4)
    case Reverse => DrawCents(r, 1, 4)
    case Jackpot => DrawCents(r, 10, 40)
  }

  /** Whether the last beg, if there was one, is less than a minute old (0 means never). */
  predicate CoolingDown(a: Account, now: int) {
    a.lastBegAt != 0 && now - a.lastBegAt < BegCooldown
  }

  datatype BegReply = BegReply(outcome: Outcome, amount: Mills, newBalance: Mills)

  /**
   * Rejects a missing account and a beg within a minute of the last one;
   * a frozen account may beg. Otherwise draws an outcome, moves the
   * balance by exactly the amount, logs the move unless it is nothing, and
   * stamps the time of the beg.
   */
  function Beg(s: Store, u: UserId, now: int, roll: Unit, amountDraw: Unit): (r: Result<Step<BegReply>>)
    ensures u !in s.accounts ==> r == Err(NoAccount)
    ensures u in s.accounts ==>
      var a := s.accounts[u];
      && (CoolingDown(a, now) <==> r.Err?)
      && (CoolingDown(a, now) ==> r.error == Cooldown(SecondsUntil(BegCooldown - (now - a.lastBegAt))))
    ensures r.Ok? ==>
      var a := s.accounts[u];
      var o := OutcomeOf(roll);
      var m := Amount(o, amountDraw);
      var nb := if o == Reverse then a.balance - m else a.balance + m;
      && r.value.reply == BegReply(o, m, nb)
      && r.value.store.accounts == s.accounts[u := a.(balance := nb, lastBegAt := now)]
      && r.value.store.transactions == s.transactions +
           (if o == Reverse then [Transaction(u, Fee, -m, nb, now)]
            else if m > 0 then [Transaction(u, Deposit, m, nb, now)]
            else [])
      && SameRecords(s, r.value.store)
  {
    if u !in s.accounts then Err(NoAccount)
    else
      var a := s.accounts[u];
      if CoolingDown(a, now) then Err(Cooldown(SecondsUntil(BegCooldown - (now - a.lastBegAt))))
      else
        var o := OutcomeOf(roll);
        var m := Amount(o, amountDraw);
        var nb := if o == Reverse then a.balance - m else a.balance + m;
        var txs := if o == Reverse then [Transaction(u, Fee, -m, nb, now)]
                   else if m > 0 then [Transaction(u, Deposit, m, nb, now)]
                   else [];
        Ok(Step(s.(accounts := s.accounts[u := a.(balance := nb, lastBegAt := now)],
                   transactions := s.transactions + txs), BegReply(o, m, nb)))
  }

  /**
   * A beg moves the balance by at most half a dollar and charges at most
   * five cents; a denied beg leaves it alone.
   */
  lemma BegBounds(s: Store, u: UserId, now: int, roll: Unit, amountDraw: Unit)
    requires Beg(s, u, now, roll, amountDraw).Ok?
    ensures var rep := Beg(s, u, now, roll, amountDraw).value.reply;
            var b := s.accounts[u].balance;
            && b - 50 <= rep.newBalance <= b + 500
            && (rep.outcome == Denied ==> rep.newBalance == b)
            && (rep.newBalance < b <==> rep.outcome == Reverse)
  {
  }

  /** Right after a beg at a non-zero time, the next beg within a minute is refused. */
  lemma BegThenCooldown(s: Store, u: UserId, now: int, later: int, roll: Unit, amountDraw: Unit, roll2: Unit, amountDraw2: Unit)
    requires Beg(s, u, now, roll, amountDraw).Ok?
    requires now != 0 && now <= later < now + BegCooldown
    ensures Beg(Beg(s, u, now, roll, amountDraw).value.store, u, later, roll2, amountDraw2)
            == Err(Cooldown(SecondsUntil(BegCooldown - (later - now))))
  {
  }

  /** With the minute elapsed the user may beg again. */
  lemma BegAfterCooldown(s: Store, u: UserId, now: int, later: int, roll: Unit, amountDraw: Unit, roll2: Unit, amountDraw2: Unit)
    requires Beg(s, u, now, roll, amountDraw).Ok?
    requires later >= now + BegCooldown
    ensures Beg(Beg(s, u, now, roll, amountDraw).value.store, u, later, roll2, amountDraw2).Ok?
  {
  }

  lemma BegKeepsValid(s: Store, u: UserId, now: int, roll: Unit, amountDraw: Unit)
    requires Valid(s)
    ensures var r := Beg(s, u, now, roll, amountDraw); r.Ok? ==> Valid(r.value.store)
  {
    var r := Beg(s, u, now, roll, amountDraw);
    if r.Ok? {
      var rep := r.value.reply;
      var log := if rep.outcome == Reverse then [Transaction(u, Fee, -rep.amount, rep.newBalance, now)]
                 else if rep.amount > 0 then [Transaction(u, Deposit, rep.amount, rep.newBalance, now)]
                 else [];
      var a' := s.accounts[u].(balance := rep.newBalance, lastBegAt := now);
      assert r.value.store.transactions == s.transactions + log;
      if log == [] {
        PatchKeepsAgreement(s, r.value.store);
      } else {
        assert r.value.store == Post(s, u, rep.newBalance, log).(accounts := s.accounts[u := a']);
        PostPatchKeepsValid(s, u, rep.newBalance, log, a');
      }
    }
  }
}
