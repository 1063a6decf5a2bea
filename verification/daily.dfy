/**
 * The daily reward: once every 24 hours, between 0.01 and 0.25, five times
 * that on a bonus day, less a processing fee of half a cent.
 */
module Daily {
  import opened Money
  import opened Ledger

  /** Milliseconds between two claims. */
  const DayMs: int := 86400000

  const HourMs: int := 3600000
  const MinuteMs: int := 60000

  /** The half-cent processing fee. */
  const DailyFee: Mills := 5

  /** Whether the last claim, if there was one, is less than a day old (0 means never). */
  predicate CoolingDown(a: Account, now: int) {
    a.lastDailyAt != 0 && now - a.lastDailyAt < DayMs
  }

  /** The wait left, split into whole hours and the whole minutes past them. */
  function Wait(remaining: int): (e: Error)
    requires remaining > 0
    ensures e.DailyCooldown? && e.remainingMs == remaining
    ensures e.hours * HourMs + e.minutes * MinuteMs <= remaining < e.hours * HourMs + (e.minutes + 1) * MinuteMs
    ensures 0 <= e.minutes < 60 && e.hours >= 0
    ensures remaining <= DayMs ==> e.hours < 24 || (e.hours == 24 && e.minutes == 0)
  {
    DailyCooldown(remaining, remaining / HourMs, (remaining % HourMs) / MinuteMs)
  }

  /** The reward before the fee: a whole-cent base in [0.01, 0.25], times five on a bonus day. */
  function Reward(bonusDraw: Unit, baseDraw: Unit): (m: Mills)
    ensures WholeCents(m)
    ensures bonusDraw < 0.05 ==> 50 <= m <= 1250 && m % 50 == 0
    ensures bonusDraw >= 0.05 ==> 10 <= m <= 250
  {
    var base := DrawCents(baseDraw, 1, 24);
    var mult := if bonusDraw < 0.05 then 5 else 1;
    RoundCents(base * mult)
  }

  datatype ClaimReply = ClaimReply(reward: Mills, fee: Mills, net: Mills, bonus: bool, newBalance: Mills)

  /**
   * Rejects a missing account and a claim within a day of the last one; a
   * frozen account may claim. Otherwise the claim is granted.
   */
  function Claim(s: Store, u: UserId, now: int, bonusDraw: Unit, baseDraw: Unit): (r: Result<Step<ClaimReply>>)
    ensures u !in s.accounts ==> r == Err(NoAccount)
    ensures u in s.accounts ==>
      var a := s.accounts[u];
      && (CoolingDown(a, now) <==> r.Err?)
      && (CoolingDown(a, now) ==> r.error == Wait(DayMs - (now - a.lastDailyAt)))
    ensures r.Ok? ==> u in s.accounts && r.value == Granted(s, u, now, bonusDraw, baseDraw)
  {
    if u !in s.accounts then Err(NoAccount)
    else
      var a := s.accounts[u];
      if CoolingDown(a, now) then Err(Wait(DayMs - (now - a.lastDailyAt)))
      else Ok(Granted(s, u, now, bonusDraw, baseDraw))
  }

  /**
   * A granted claim credits the reward less the fee, both rounded to the
   * cent, logs the reward and the fee separately and restarts the day; no
   * other account or table changes.
   */
  function Granted(s: Store, u: UserId, now: int, bonusDraw: Unit, baseDraw: Unit): (st: Step<ClaimReply>)
    requires u in s.accounts
    ensures st.reply.reward == Reward(bonusDraw, baseDraw) && st.reply.fee == DailyFee
    ensures st.reply.bonus <==> bonusDraw < 0.05
    ensures WholeCents(st.reply.net) && st.reply.reward - DailyFee - 5 < st.reply.net <= st.reply.reward - DailyFee + 5
    ensures WholeCents(st.reply.newBalance)
    ensures WholeCents(s.accounts[u].balance) ==> st.reply.newBalance == s.accounts[u].balance + st.reply.net
    ensures st.store.accounts.Keys == s.accounts.Keys && SameRecords(s, st.store)
    ensures forall v :: v in s.accounts && v != u ==> st.store.accounts[v] == s.accounts[v]
    ensures st.store.accounts[u] == s.accounts[u].(balance := st.reply.newBalance, lastDailyAt := now)
    ensures |st.store.transactions| == |s.transactions| + 2
    ensures st.store.transactions[..|s.transactions|] == s.transactions
    ensures st.store.transactions[|s.transactions|]
            == Transaction(u, Deposit, st.reply.reward, RoundCents(s.accounts[u].balance + st.reply.reward), now)
    ensures st.store.transactions[|s.transactions| + 1] == Transaction(u, Fee, -DailyFee, st.reply.newBalance, now + 1)
  {
    var a := s.accounts[u];
    var reward := Reward(bonusDraw, baseDraw);
    var net := RoundCents(reward - DailyFee);
    var nb := RoundCents(a.balance + net);
    var txs := ClaimLog(u, reward, RoundCents(a.balance + reward), nb, now);
    WholeCentsArith(a.balance, net);
    assert txs == [Transaction(u, Deposit, reward, RoundCents(a.balance + reward), now), Transaction(u, Fee, -DailyFee, nb, now + 1)];
    Step(Post(s, u, nb, txs).(accounts := s.accounts[u := a.(balance := nb, lastDailyAt := now)]),
         ClaimReply(reward, DailyFee, net, bonusDraw < 0.05, nb))
  }

  /** The reward credited at `now`, then the fee a millisecond later. */
  function ClaimLog(u: UserId, reward: Mills, after: Mills, nb: Mills, now: int): (log: seq<Transaction>)
    ensures |log| == 2 && log[1].balanceAfter == nb
    ensures forall t :: t in log ==> t.userId == u
  {
    [Transaction(u, Deposit, reward, after, now), Transaction(u, Fee, -DailyFee, nb, now + 1)]
  }

  /**
   * In exact arithmetic the half-cent fee rounds away: the net equals the
   * reward, and a whole-cent balance grows by the full reward although a
   * fee entry is logged.
   */
  lemma FeeRoundsAway(s: Store, u: UserId, now: int, bonusDraw: Unit, baseDraw: Unit)
    requires Claim(s, u, now, bonusDraw, baseDraw).Ok?
    requires WholeCents(s.accounts[u].balance)
    ensures var rep := Claim(s, u, now, bonusDraw, baseDraw).value.reply;
            && rep.net == rep.reward
            && rep.newBalance == s.accounts[u].balance + rep.reward
  {
    var reward := Reward(bonusDraw, baseDraw);
    var j := reward / 10;
    assert reward == 10 * j;
    assert RoundCents(reward - DailyFee) == (2 * (10 * j - 5) + 10) / 20 * 10;
    assert (20 * j) / 20 == j;
    WholeCentsArith(s.accounts[u].balance, reward);
  }

  /** Right after a claim at a non-zero time, the next claim within a day is refused. */
  lemma ClaimThenCooldown(s: Store, u: UserId, now: int, later: int, b1: Unit, d1: Unit, b2: Unit, d2: Unit)
    requires Claim(s, u, now, b1, d1).Ok?
    requires now != 0 && now <= later < now + DayMs
    ensures Claim(Claim(s, u, now, b1, d1).value.store, u, later, b2, d2) == Err(Wait(DayMs - (later - now)))
  {
  }

  lemma ClaimKeepsValid(s: Store, u: UserId, now: int, bonusDraw: Unit, baseDraw: Unit)
    requires Valid(s)
    ensures var r := Claim(s, u, now, bonusDraw, baseDraw); r.Ok? ==> Valid(r.value.store)
  {
    var r := Claim(s, u, now, bonusDraw, baseDraw);
    if r.Ok? {
      GrantedKeepsValid(s, u, now, bonusDraw, baseDraw);
    }
  }

  lemma GrantedKeepsValid(s: Store, u: UserId, now: int, bonusDraw: Unit, baseDraw: Unit)
    requires Valid(s) && u in s.accounts
    ensures Valid(Granted(s, u, now, bonusDraw, baseDraw).store)
  {
    var a := s.accounts[u];
    var st := Granted(s, u, now, bonusDraw, baseDraw);
    var log := ClaimLog(u, st.reply.reward, RoundCents(a.balance + st.reply.reward), st.reply.newBalance, now);
    var a' := a.(balance := st.reply.newBalance, lastDailyAt := now);
    assert st.store == Post(s, u, st.reply.newBalance, log).(accounts := s.accounts[u := a']);
    PostPatchKeepsValid(s, u, st.reply.newBalance, log, a');
  }
}
