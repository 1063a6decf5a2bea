/**
 * Account lifecycle and the balance-moving account operations
 * (convex/accounts.ts).
 */
module Accounts {
  import opened Money
  import opened Ledger

  // ---------------------------------------------------------------------
  // Constants

  /** The ten possible opening balances, in mills. */
  const StartingBalances: seq<Mills> := [10, 30, 470, 1230, 3500, 690, 2010, 100, 4200, 990]

  const OpeningFee: Mills := 5
  const ProcessingFee: Mills := 500
  const BreathingFee: Mills := 20
  const ConvenienceFee: Mills := 250

  /** The upgrade ladder and what each rung costs to reach. */
  const Tiers: seq<Tier> := [Bronze, Silver, Gold, Platinum, Diamond, Obsidian]
  const TierCosts: seq<Mills> := [100, 250, 500, 1000, 2000, 5000]

  // ---------------------------------------------------------------------
  // Account numbers

  /** The decimal digits of `n`. */
  function DecimalString(n: nat): (d: string)
    ensures |d| >= 1
    ensures forall i :: 0 <= i < |d| ==> '0' <= d[i] <= '9'
  {
    if n < 10 then [DigitChar(n)] else DecimalString(n / 10) + [DigitChar(n % 10)]
  }

  function DigitChar(k: nat): (c: char)
    requires k < 10
    ensures '0' <= c <= '9'
  {
    "0123456789"[k]
  }

  /** A number with `k` decimal digits prints as exactly `k` characters. */
  lemma {:induction false} DecimalStringLength(n: nat, k: nat)
    requires k >= 1
    requires (k == 1 && n < 10) || (k > 1 && Pow10(k - 1) <= n < Pow10(k))
    ensures |DecimalString(n)| == k
    decreases k
  {
    if k > 1 {
      if k == 2 {
        assert n / 10 < 10;
      } else {
        assert Pow10(k - 2) <= n / 10 < Pow10(k - 1);
        DecimalStringLength(n / 10, k - 1);
      }
    }
  }

  function Pow10(k: nat): (p: nat)
    ensures p >= 1
  {
    if k == 0 then 1 else 10 * Pow10(k - 1)
  }

  /**
   * `NNNN-SBAG-NNNNN-L`: a four-digit number, the fixed sigil, a five-digit
   * number and a capital letter, from three draws.
   */
  function AccountNumber(r1: Unit, r2: Unit, r3: Unit): (n: string)
    ensures |n| == 17
    ensures n[4..10] == "-SBAG-" && n[15] == '-'
    ensures 'A' <= n[16] <= 'Z'
  {
    var a := PickIndex(r1, 9000) + 1000;
    var b := PickIndex(r2, 90000) + 10000;
    var c := PickIndex(r3, 26);
    DecimalStringLength(a, 4);
    DecimalStringLength(b, 5);
    DecimalString(a) + "-SBAG-" + DecimalString(b) + "-" + ["ABCDEFGHIJKLMNOPQRSTUVWXYZ"[c]]
  }

  // ---------------------------------------------------------------------
  // open

  /**
   * Opens an account, or returns the existing one untouched. A new account
   * gets a starting balance from the table, a deposit of it, and an opening
   * fee of half a cent whose snapshot is the stored balance.
   */
  function Open(s: Store, u: UserId, name: Option<string>, now: int, numberDraws: (Unit, Unit, Unit), balanceDraw: Unit): (r: Step<Account>)
    ensures u in r.store.accounts && r.reply == r.store.accounts[u]
    ensures u in s.accounts ==> r.store == s && r.reply == s.accounts[u]
    ensures u !in s.accounts ==>
      var start := StartingBalances[PickIndex(balanceDraw, |StartingBalances|)];
      var a := r.reply;
      && r.store.accounts == s.accounts[u := a]
      && a.balance == RoundCents(start - OpeningFee)
      && a.status == Active && a.tier == None && a.name == name
      && a.createdAt == now && a.lastFeeAt == now
      && r.store.transactions == s.transactions + [
           Transaction(u, Deposit, start, start, now),
           Transaction(u, Fee, -OpeningFee, a.balance, now + 1)]
      && SameRecords(s, r.store)
  {
    if u in s.accounts then Step(s, s.accounts[u])
    else
      var start := StartingBalances[PickIndex(balanceDraw, |StartingBalances|)];
      var afterFee := RoundCents(start - OpeningFee);
      var (r1, r2, r3) := numberDraws;
      var a := Account(AccountNumber(r1, r2, r3), afterFee, name, Active, None, false, now, now, 0, 0);
      var s' := s.(accounts := s.accounts[u := a],
                   transactions := s.transactions + [
                     Transaction(u, Deposit, start, start, now),
                     Transaction(u, Fee, -OpeningFee, afterFee, now + 1)]);
      Step(s', a)
  }

  /** Opening twice changes nothing the second time and returns the same account. */
  lemma OpenIdempotent(s: Store, u: UserId, name: Option<string>, now: int, d: (Unit, Unit, Unit), b: Unit,
                       name': Option<string>, now': int, d': (Unit, Unit, Unit), b': Unit)
    ensures var first := Open(s, u, name, now, d, b);
            var second := Open(first.store, u, name', now', d', b');
            second.store == first.store && second.reply == first.reply
  {
  }

  /**
   * With exact decimal arithmetic the half-cent opening fee rounds away:
   * every starting balance is whole cents, so the stored balance is the
   * starting balance itself.
   */
  lemma OpeningFeeRoundsAway(s: Store, u: UserId, name: Option<string>, now: int, d: (Unit, Unit, Unit), b: Unit)
    requires u !in s.accounts
    ensures Open(s, u, name, now, d, b).reply.balance == StartingBalances[PickIndex(b, |StartingBalances|)]
  {
    var start := StartingBalances[PickIndex(b, |StartingBalances|)];
    assert WholeCents(start);
    RoundCentsShift(-OpeningFee, start);
  }

  lemma OpenKeepsValid(s: Store, u: UserId, name: Option<string>, now: int, d: (Unit, Unit, Unit), b: Unit)
    requires Valid(s)
    ensures Valid(Open(s, u, name, now, d, b).store)
  {
    if u !in s.accounts {
      var r := Open(s, u, name, now, d, b);
      var s1 := s.(accounts := s.accounts[u := r.reply]);
      var txs := r.store.transactions[|s.transactions|..];
      assert r.store.transactions == s.transactions + txs;
      assert r.store == Post(s1, u, r.reply.balance, txs);
      PostKeepsAgreement(s1, u, r.reply.balance, txs);
    }
  }

  // ---------------------------------------------------------------------
  // chargeFee

  /**
   * Debits `amount` with no lower bound on the result and logs one fee;
   * `None` (no writes) when the user has no account.
   */
  function ChargeFee(s: Store, u: UserId, amount: Mills, now: int): (r: Option<Step<Mills>>)
    ensures r.None? <==> u !in s.accounts
    ensures r.Some? ==>
      var a := s.accounts[u];
      && r.value.reply == RoundCents(a.balance - amount)
      && r.value.store.accounts == s.accounts[u := a.(balance := r.value.reply, lastFeeAt := now)]
      && r.value.store.transactions == s.transactions + [Transaction(u, Fee, -amount, r.value.reply, now)]
      && SameRecords(s, r.value.store)
  {
    if u !in s.accounts then None
    else
      var a := s.accounts[u];
      var newBalance := RoundCents(a.balance - amount);
      var s1 := s.(accounts := s.accounts[u := a.(lastFeeAt := now)]);
      Some(Step(Post(s1, u, newBalance, [Transaction(u, Fee, -amount, newBalance, now)]), newBalance))
  }

  /** A fee of whole cents on a whole-cent balance takes exactly that much. */
  lemma ChargeFeeExact(s: Store, u: UserId, amount: Mills, now: int)
    requires u in s.accounts && WholeCents(s.accounts[u].balance) && WholeCents(amount)
    ensures ChargeFee(s, u, amount, now).value.reply == s.accounts[u].balance - amount
  {
    var b := s.accounts[u].balance;
    assert ChargeFee(s, u, amount, now).value.reply == RoundCents(b - amount);
    WholeCentsArith(b, amount);
  }

  lemma ChargeFeeKeepsValid(s: Store, u: UserId, amount: Mills, now: int)
    requires Valid(s)
    ensures var r := ChargeFee(s, u, amount, now); r.Some? ==> Valid(r.value.store)
  {
    var r := ChargeFee(s, u, amount, now);
    if r.Some? {
      var nb := r.value.reply;
      var log := [Transaction(u, Fee, -amount, nb, now)];
      var a' := s.accounts[u].(balance := nb, lastFeeAt := now);
      assert r.value.store == Post(s, u, nb, log).(accounts := s.accounts[u := a']);
      PostPatchKeepsValid(s, u, nb, log, a');
    }
  }

  // ---------------------------------------------------------------------
  // transfer

  /** The 15% transfer fee, rounded to the cent. */
  function TransferFee(amount: Mills): (f: Mills)
    ensures WholeCents(f)
    ensures 200 * f - 1000 <= 30 * amount < 200 * f + 1000
  {
    RoundScaled(amount, 15, 100)
  }

  /** Processing fee, transfer fee and breathing fee together. */
  function TransferFees(amount: Mills): (f: Mills)
    ensures f == ProcessingFee + TransferFee(amount) + BreathingFee
  {
    RoundCents(ProcessingFee + TransferFee(amount) + BreathingFee)
  }

  /** What a transfer must find in the account: the amount plus all fees, rounded. */
  function TransferTotal(amount: Mills): (t: Mills)
    ensures t == RoundCents(amount) + TransferFees(amount)
  {
    RoundCentsShift(amount, TransferFees(amount));
    RoundCents(amount + TransferFees(amount))
  }

  datatype TransferReply = TransferReply(amount: Mills, fees: Mills, feeBreakdown: seq<Mills>, newBalance: Mills)

  /**
   * The four entries a transfer logs: the principal, then the processing,
   * transfer and breathing fees, each snapshot rounded from the one before.
   */
  function TransferLog(u: UserId, amount: Mills, balance: Mills, now: int): (log: seq<Transaction>)
    ensures |log| == 4 && forall t :: t in log ==> t.userId == u
    ensures log[0] == Transaction(u, TxKind.Transfer, -amount, RoundCents(balance - amount), now)
    ensures log[1] == Transaction(u, Fee, -ProcessingFee, log[0].balanceAfter - ProcessingFee, now + 1)
    ensures log[2] == Transaction(u, Fee, -TransferFee(amount), log[1].balanceAfter - TransferFee(amount), now + 2)
    ensures log[3] == Transaction(u, Fee, -BreathingFee, log[2].balanceAfter - BreathingFee, now + 3)
    ensures log[3].balanceAfter == RoundCents(RoundCents(balance - amount) - TransferFees(amount))
  {
    var afterTransfer := RoundCents(balance - amount);
    var run1 := RoundCents(afterTransfer - ProcessingFee);
    var run2 := RoundCents(run1 - TransferFee(amount));
    var run3 := RoundCents(run2 - BreathingFee);
    WholeCentsArith(afterTransfer, ProcessingFee);
    WholeCentsArith(run1, TransferFee(amount));
    WholeCentsArith(run2, BreathingFee);
    WholeCentsArith(afterTransfer, TransferFees(amount));
    assert run3 == afterTransfer - TransferFees(amount);
    [Transaction(u, TxKind.Transfer, -amount, afterTransfer, now),
     Transaction(u, Fee, -ProcessingFee, run1, now + 1),
     Transaction(u, Fee, -TransferFee(amount), run2, now + 2),
     Transaction(u, Fee, -BreathingFee, run3, now + 3)]
  }

  /**
   * Rejects `NoAccount`, then `AccountFrozen`, then `Insufficient` when the
   * balance is below the amount plus fees. Otherwise logs the transfer and
   * the three fees with running snapshots, and debits once, so that the
   * stored balance is the last snapshot.
   */
  function Transfer(s: Store, u: UserId, amount: Mills, recipient: string, now: int): (r: Result<Step<TransferReply>>)
    ensures u !in s.accounts ==> r == Err(NoAccount)
    ensures u in s.accounts && s.accounts[u].status == Frozen ==> r == Err(AccountFrozen)
    ensures u in s.accounts && s.accounts[u].status != Frozen ==>
      (r.Err? <==> s.accounts[u].balance < TransferTotal(amount))
    ensures r.Err? && u in s.accounts && s.accounts[u].status != Frozen ==>
      r.error == Insufficient(s.accounts[u].balance, TransferTotal(amount))
    ensures r.Ok? ==>
      var log := TransferLog(u, amount, s.accounts[u].balance, now);
      && r.value.reply.newBalance == log[3].balanceAfter
      && r.value.reply.fees == TransferFees(amount)
      && r.value.store == Post(s, u, log[3].balanceAfter, log)
  {
    if u !in s.accounts then Err(NoAccount)
    else
      var a := s.accounts[u];
      if a.status == Frozen then Err(AccountFrozen)
      else
        var totalDeducted := TransferTotal(amount);
        if a.balance < totalDeducted then Err(Insufficient(a.balance, totalDeducted))
        else
          var log := TransferLog(u, amount, a.balance, now);
          var afterFees := RoundCents(RoundCents(a.balance - amount) - TransferFees(amount));
          Ok(Step(Post(s, u, afterFees, log),
                  TransferReply(amount, TransferFees(amount), [ProcessingFee, TransferFee(amount), BreathingFee], afterFees)))
  }

  /**
   * On whole-cent inputs the total deducted is the amount, 0.50, 15% of the
   * amount and 0.02, and the new balance is the old one less that total.
   */
  lemma TransferWholeCents(s: Store, u: UserId, amount: Mills, recipient: string, now: int)
    requires u in s.accounts && WholeCents(s.accounts[u].balance) && WholeCents(amount)
    ensures TransferTotal(amount) == amount + ProcessingFee + TransferFee(amount) + BreathingFee
    ensures var r := Transfer(s, u, amount, recipient, now);
            r.Ok? ==> r.value.reply.newBalance == s.accounts[u].balance - TransferTotal(amount)
  {
    var b := s.accounts[u].balance;
    var fees := TransferFees(amount);
    WholeCentsArith(b, amount);
    WholeCentsArith(b - amount, fees);
    assert RoundCents(RoundCents(b - amount) - fees) == b - amount - fees;
  }

  lemma TransferKeepsValid(s: Store, u: UserId, amount: Mills, recipient: string, now: int)
    requires Valid(s)
    ensures var r := Transfer(s, u, amount, recipient, now); r.Ok? ==> Valid(r.value.store)
  {
    var r := Transfer(s, u, amount, recipient, now);
    if r.Ok? {
      var log := TransferLog(u, amount, s.accounts[u].balance, now);
      PostKeepsValid(s, u, log[3].balanceAfter, log);
    }
  }

  // ---------------------------------------------------------------------
  // deposit

  datatype DepositReply = DepositReply(requested: Mills, actual: Mills, fee: Mills, newBalance: Mills)

  /**
   * Credits only 73% of the requested amount (rounded), then takes a 0.25
   * convenience fee. No status or sign check is made.
   */
  function DepositFunds(s: Store, u: UserId, amount: Mills, now: int): (r: Result<Step<DepositReply>>)
    ensures r.Err? <==> u !in s.accounts
    ensures r.Err? ==> r.error == NoAccount
    ensures r.Ok? ==>
      var a := s.accounts[u];
      var actual := r.value.reply.actual;
      && WholeCents(actual) && 200 * actual - 1000 <= 146 * amount < 200 * actual + 1000
      && r.value.reply.newBalance == RoundCents(a.balance + RoundCents(actual - ConvenienceFee))
      && r.value.store.accounts == s.accounts[u := a.(balance := r.value.reply.newBalance)]
      && r.value.store.transactions == s.transactions + [
           Transaction(u, Deposit, actual, RoundCents(a.balance + actual), now),
           Transaction(u, Fee, -ConvenienceFee, r.value.reply.newBalance, now + 1)]
      && SameRecords(s, r.value.store)
  {
    if u !in s.accounts then Err(NoAccount)
    else
      var a := s.accounts[u];
      var actual := RoundScaled(amount, 73, 100);
      var net := RoundCents(actual - ConvenienceFee);
      var newBalance := RoundCents(a.balance + net);
      var txs := [
        Transaction(u, Deposit, actual, RoundCents(a.balance + actual), now),
        Transaction(u, Fee, -ConvenienceFee, newBalance, now + 1)];
      Ok(Step(Post(s, u, newBalance, txs), DepositReply(amount, actual, ConvenienceFee, newBalance)))
  }

  /** On a whole-cent balance the two snapshots step by the credit and then the fee. */
  lemma DepositSnapshots(s: Store, u: UserId, amount: Mills, now: int)
    requires u in s.accounts && WholeCents(s.accounts[u].balance)
    ensures var r := DepositFunds(s, u, amount, now);
            var log := r.value.store.transactions;
            && log[|log| - 2].balanceAfter == s.accounts[u].balance + r.value.reply.actual
            && log[|log| - 1].balanceAfter == log[|log| - 2].balanceAfter - ConvenienceFee
  {
    var r := DepositFunds(s, u, amount, now);
    var actual := r.value.reply.actual;
    var b := s.accounts[u].balance;
    var log := r.value.store.transactions;
    assert log[|log| - 2].balanceAfter == RoundCents(b + actual);
    assert log[|log| - 1].balanceAfter == RoundCents(b + RoundCents(actual - ConvenienceFee));
    assert WholeCents(ConvenienceFee);
    WholeCentsArith(actual, ConvenienceFee);
    WholeCentsArith(b, actual);
    WholeCentsArith(b, actual - ConvenienceFee);
  }

  lemma DepositKeepsValid(s: Store, u: UserId, amount: Mills, now: int)
    requires Valid(s)
    ensures var r := DepositFunds(s, u, amount, now); r.Ok? ==> Valid(r.value.store)
  {
    var r := DepositFunds(s, u, amount, now);
    if r.Ok? {
      var txs := r.value.store.transactions[|s.transactions|..];
      assert r.value.store.transactions == s.transactions + txs;
      PostKeepsAgreement(s, u, r.value.reply.newBalance, txs);
    }
  }

  // ---------------------------------------------------------------------
  // freezeAccount, setStatus, toggleNotifications

  /** Sets the status to frozen; `None` when there is no account. Nothing else changes. */
  function FreezeAccount(s: Store, u: UserId): (r: Option<Store>)
    ensures r.None? <==> u !in s.accounts
    ensures r.Some? ==> r.value == s.(accounts := s.accounts[u := s.accounts[u].(status := Frozen)])
  {
    SetStatus(s, u, "frozen")
  }

  /** Stores any status tag without checks; `None` when there is no account. */
  function SetStatus(s: Store, u: UserId, tag: string): (r: Option<Store>)
    ensures r.None? <==> u !in s.accounts
    ensures r.Some? ==> r.value.accounts.Keys == s.accounts.Keys
    ensures r.Some? ==> r.value.accounts[u].status == StatusOf(tag)
    ensures r.Some? ==> r.value.accounts[u].balance == s.accounts[u].balance
    ensures r.Some? ==> forall v :: v in s.accounts && v != u ==> r.value.accounts[v] == s.accounts[v]
    ensures r.Some? ==> r.value.transactions == s.transactions && SameRecords(s, r.value)
  {
    if u !in s.accounts then None
    else Some(s.(accounts := s.accounts[u := s.accounts[u].(status := StatusOf(tag))]))
  }

  lemma SetStatusKeepsValid(s: Store, u: UserId, tag: string)
    requires Valid(s)
    ensures var r := SetStatus(s, u, tag); r.Some? ==> Valid(r.value)
  {
    var r := SetStatus(s, u, tag);
    if r.Some? {
      PatchKeepsAgreement(s, r.value);
    }
  }

  /** Flips the notification flag and returns its new value; `None` without an account. */
  function ToggleNotifications(s: Store, u: UserId): (r: Option<Step<bool>>)
    ensures r.None? <==> u !in s.accounts
    ensures r.Some? ==> r.value.reply == !s.accounts[u].notifications
    ensures r.Some? ==> r.value.store.accounts == s.accounts[u := s.accounts[u].(notifications := r.value.reply)]
    ensures r.Some? ==> r.value.store.transactions == s.transactions && SameRecords(s, r.value.store)
  {
    if u !in s.accounts then None
    else
      var flag := !s.accounts[u].notifications;
      Some(Step(s.(accounts := s.accounts[u := s.accounts[u].(notifications := flag)]), flag))
  }

  /** Toggling twice restores the account. */
  lemma ToggleTwiceRestores(s: Store, u: UserId)
    requires u in s.accounts
    ensures ToggleNotifications(ToggleNotifications(s, u).value.store, u).value.store == s
  {
    var a := s.accounts[u];
    assert a.(notifications := !!a.notifications) == a;
    assert s.accounts[u := a] == s.accounts;
  }

  lemma ToggleKeepsValid(s: Store, u: UserId)
    requires Valid(s)
    ensures var r := ToggleNotifications(s, u); r.Some? ==> Valid(r.value.store)
  {
    var r := ToggleNotifications(s, u);
    if r.Some? {
      PatchKeepsAgreement(s, r.value.store);
    }
  }

  /** The given users that have an account with notifications on, in the given order. */
  function NotificationUsers(s: Store, users: seq<UserId>): (r: seq<UserId>)
    ensures forall v :: v in r <==> v in users && v in s.accounts && s.accounts[v].notifications
    ensures |r| <= |users|
  {
    if |users| == 0 then []
    else
      var rest := NotificationUsers(s, users[1..]);
      var v := users[0];
      if v in s.accounts && s.accounts[v].notifications then [v] + rest else rest
  }

  /**
   * The users returned are the given list filtered by whether notifications
   * are on: input order and repeats are kept.
   */
  lemma {:induction false} NotificationUsersInOrder(s: Store, users: seq<UserId>)
    ensures NotificationUsers(s, users) == Filter(users, v => v in s.accounts && s.accounts[v].notifications)
  {
    if users != [] {
      NotificationUsersInOrder(s, users[1..]);
    }
  }

  // ---------------------------------------------------------------------
  // rob

  datatype RobReply =
    | Caught(fine: Mills, newBalance: Mills)
    | Robbed(stolen: Mills, fence: Mills, net: Mills, robberNewBalance: Mills, victimNewBalance: Mills)

  /** The most a robbery may take aim at: the victim's balance, capped at 2.00. */
  function MaxSteal(victimBalance: Mills): Mills {
    if victimBalance < 2000 then victimBalance else 2000
  }

  /**
   * The amount taken: a draw up to half the cap plus a cent, rounded to
   * the cent; at least one cent and below half of `maxSteal` plus a cent
   * and a half.
   */
  function StolenAmount(maxSteal: Mills, r: Unit): (stolen: Mills)
    requires maxSteal > 0
    ensures WholeCents(stolen)
    ensures 10 <= stolen && 2 * stolen < maxSteal + 30
  {
    10 * (Scale(r, maxSteal) / 20.0 + 1.5).Floor
  }

  /** The 30% fencing fee, rounded to the cent. */
  function FenceFee(stolen: Mills): (f: Mills)
    ensures WholeCents(f)
    ensures 200 * f - 1000 <= 60 * stolen < 200 * f + 1000
  {
    RoundScaled(stolen, 30, 100)
  }

  /**
   * A caught robber pays a fine in [0.50, 2.00] and turns suspicious; the
   * fine's snapshot is the new balance.
   */
  function RobCaught(s: Store, robber: UserId, now: int, fineDraw: Unit): (r: Step<RobReply>)
    requires robber in s.accounts
    ensures r.reply.Caught? && 500 <= r.reply.fine <= 2000 && WholeCents(r.reply.fine)
    ensures r.reply.newBalance == RoundCents(s.accounts[robber].balance - r.reply.fine)
    ensures r.store == Post(s.(accounts := s.accounts[robber := s.accounts[robber].(status := Suspicious)]),
                            robber, r.reply.newBalance, [Transaction(robber, Fee, -r.reply.fine, r.reply.newBalance, now)])
    ensures robber in r.store.accounts && r.store.accounts[robber].status == Suspicious
  {
    var ra := s.accounts[robber];
    var fine := DrawCents(fineDraw, 50, 150);
    var newBalance := RoundCents(ra.balance - fine);
    var s1 := s.(accounts := s.accounts[robber := ra.(status := Suspicious)]);
    Step(Post(s1, robber, newBalance, [Transaction(robber, Fee, -fine, newBalance, now)]), Caught(fine, newBalance))
  }

  /** The victim's entry of a successful robbery. */
  function VictimLog(victim: UserId, stolen: Mills, victimNew: Mills, now: int): seq<Transaction> {
    [Transaction(victim, Withdrawal, -stolen, victimNew, now)]
  }

  /** The robber's two entries: the net proceeds, then the fence's cut, both with the new balance. */
  function RobberLog(robber: UserId, net: Mills, fence: Mills, robberNew: Mills, now: int): seq<Transaction> {
    [Transaction(robber, Deposit, net, robberNew, now), Transaction(robber, Fee, -fence, robberNew, now + 1)]
  }

  /**
   * A successful robbery: the victim loses the stolen amount, the robber
   * gains it less the 30% fence, so the two entries differ by the fence.
   */
  function RobSucceeds(s: Store, robber: UserId, victim: UserId, now: int, amountDraw: Unit): (r: Step<RobReply>)
    requires robber != victim && robber in s.accounts && victim in s.accounts
    requires MaxSteal(s.accounts[victim].balance) > 0
    ensures r.reply.Robbed?
    ensures WholeCents(r.reply.stolen)
    ensures 10 <= r.reply.stolen && 2 * r.reply.stolen < MaxSteal(s.accounts[victim].balance) + 30
    ensures r.reply.fence == FenceFee(r.reply.stolen) && r.reply.stolen - r.reply.net == r.reply.fence
    ensures r.reply.victimNewBalance == RoundCents(s.accounts[victim].balance - r.reply.stolen)
    ensures r.reply.robberNewBalance == RoundCents(s.accounts[robber].balance + r.reply.net)
    ensures r.store == Post(Post(s, victim, r.reply.victimNewBalance, VictimLog(victim, r.reply.stolen, r.reply.victimNewBalance, now)),
                            robber, r.reply.robberNewBalance,
                            RobberLog(robber, r.reply.net, r.reply.fence, r.reply.robberNewBalance, now))
  {
    var va := s.accounts[victim];
    var ra := s.accounts[robber];
    var stolen := StolenAmount(MaxSteal(va.balance), amountDraw);
    var fence := FenceFee(stolen);
    WholeCentsArith(stolen, fence);
    var net := RoundCents(stolen - fence);
    var victimNew := RoundCents(va.balance - stolen);
    var robberNew := RoundCents(ra.balance + net);
    var s1 := Post(s, victim, victimNew, VictimLog(victim, stolen, victimNew, now));
    Step(Post(s1, robber, robberNew, RobberLog(robber, net, fence, robberNew, now)),
         Robbed(stolen, fence, net, robberNew, victimNew))
  }

  /**
   * Rejects self-robbery before any lookup, then a missing robber, a frozen
   * robber and a missing victim. The 45% caught draw comes before the broke
   * check, so a robber can be fined even when the victim has nothing.
   */
  function Rob(s: Store, robber: UserId, victim: UserId, now: int, caughtDraw: Unit, amountDraw: Unit): (r: Result<Step<RobReply>>)
    ensures robber == victim ==> r == Err(SelfRob)
    ensures robber != victim && robber !in s.accounts ==> r == Err(NoAccount)
    ensures robber != victim && robber in s.accounts && s.accounts[robber].status == Frozen ==> r == Err(AccountFrozen)
    ensures robber != victim && robber in s.accounts && s.accounts[robber].status != Frozen && victim !in s.accounts
      ==> r == Err(NoVictim)
    ensures r.Err? && r.error == VictimBroke ==> caughtDraw >= 0.45 && s.accounts[victim].balance <= 0
    ensures robber != victim && robber in s.accounts && s.accounts[robber].status != Frozen && victim in s.accounts ==>
      && (r.Ok? <==> caughtDraw < 0.45 || s.accounts[victim].balance > 0)
      && (r.Err? ==> r.error == VictimBroke)
    ensures r.Ok? ==> robber != victim && robber in s.accounts && victim in s.accounts && s.accounts[robber].status != Frozen
    ensures r.Ok? ==> (r.value.reply.Caught? <==> caughtDraw < 0.45)
    ensures r.Ok? && caughtDraw < 0.45 ==> r.value == RobCaught(s, robber, now, amountDraw)
    ensures r.Ok? && caughtDraw >= 0.45 ==> s.accounts[victim].balance > 0 && r.value == RobSucceeds(s, robber, victim, now, amountDraw)
  {
    if robber == victim then Err(SelfRob)
    else if robber !in s.accounts then Err(NoAccount)
    else if s.accounts[robber].status == Frozen then Err(AccountFrozen)
    else if victim !in s.accounts then Err(NoVictim)
    else if caughtDraw < 0.45 then Ok(RobCaught(s, robber, now, amountDraw))
    else if MaxSteal(s.accounts[victim].balance) <= 0 then Err(VictimBroke)
    else Ok(RobSucceeds(s, robber, victim, now, amountDraw))
  }

  /**
   * With whole-cent balances the victim never loses more than the capped
   * amount, and the victim's loss exceeds the robber's gain by exactly the
   * fencing fee.
   */
  lemma RobWholeCents(s: Store, robber: UserId, victim: UserId, now: int, d: Unit)
    requires robber != victim && robber in s.accounts && victim in s.accounts
    requires WholeCents(s.accounts[robber].balance) && WholeCents(s.accounts[victim].balance)
    requires s.accounts[victim].balance > 0
    ensures var rep := RobSucceeds(s, robber, victim, now, d).reply;
            var vb := s.accounts[victim].balance;
            var rb := s.accounts[robber].balance;
            && rep.stolen <= MaxSteal(vb)
            && (vb - rep.victimNewBalance) - (rep.robberNewBalance - rb) == rep.fence
  {
    var rep := RobSucceeds(s, robber, victim, now, d).reply;
    var vb := s.accounts[victim].balance;
    var rb := s.accounts[robber].balance;
    RobArith(vb, rb, MaxSteal(vb), rep.stolen, rep.fence, rep.net, rep.victimNewBalance, rep.robberNewBalance);
  }

  /** The cent arithmetic behind `RobWholeCents`, free of the store. */
  lemma RobArith(vb: Mills, rb: Mills, cap: Mills, stolen: Mills, fence: Mills, net: Mills, vnew: Mills, rnew: Mills)
    requires WholeCents(vb) && WholeCents(rb) && WholeCents(stolen) && WholeCents(fence)
    requires cap == MaxSteal(vb) && cap > 0 && 2 * stolen < cap + 30 && stolen - net == fence
    requires vnew == RoundCents(vb - stolen) && rnew == RoundCents(rb + net)
    ensures stolen <= cap && (vb - vnew) - (rnew - rb) == fence
  {
    assert WholeCents(cap);
    var k, c := stolen / 10, cap / 10;
    assert stolen == 10 * k && cap == 10 * c;
    WholeCentsArith(vb, stolen);
    WholeCentsArith(stolen, fence);
    WholeCentsArith(rb, net);
  }


  /**
   * A victim holding less than a cent (balances carry mills after begging)
   * still loses a whole cent: the one-cent floor of the stolen amount lets
   * a robbery overdraw the victim.
   */
  lemma RobCanOverdrawSubCentVictim(s: Store, robber: UserId, victim: UserId, now: int, d: Unit)
    requires robber != victim && robber in s.accounts && victim in s.accounts
    requires s.accounts[robber].status != Frozen && s.accounts[victim].balance == 1
    ensures var r := Rob(s, robber, victim, now, 0.5, d);
            && r.Ok? && r.value.reply.Robbed?
            && r.value.reply.stolen == 10 > MaxSteal(1)
            && r.value.reply.victimNewBalance == -10
  {
    var r := Rob(s, robber, victim, now, 0.5, d);
    assert r.Ok? && r.value == RobSucceeds(s, robber, victim, now, d);
    var rep := r.value.reply;
    assert rep.stolen == 10 by {
      var k := rep.stolen / 10;
      assert rep.stolen == 10 * k;
    }
    assert RoundCents(1 - 10) == -10;
  }

  lemma RobKeepsValid(s: Store, robber: UserId, victim: UserId, now: int, c: Unit, d: Unit)
    requires Valid(s)
    ensures var r := Rob(s, robber, victim, now, c, d); r.Ok? ==> Valid(r.value.store)
  {
    var r := Rob(s, robber, victim, now, c, d);
    if r.Ok? {
      if c < 0.45 {
        RobCaughtKeepsValid(s, robber, now, d);
      } else {
        RobSucceedsKeepsValid(s, robber, victim, now, d);
      }
    }
  }

  lemma RobCaughtKeepsValid(s: Store, robber: UserId, now: int, d: Unit)
    requires Valid(s) && robber in s.accounts
    ensures Valid(RobCaught(s, robber, now, d).store)
  {
    var rep := RobCaught(s, robber, now, d).reply;
    var s1 := s.(accounts := s.accounts[robber := s.accounts[robber].(status := Suspicious)]);
    PostKeepsAgreement(s1, robber, rep.newBalance, [Transaction(robber, Fee, -rep.fine, rep.newBalance, now)]);
  }

  lemma RobSucceedsKeepsValid(s: Store, robber: UserId, victim: UserId, now: int, d: Unit)
    requires Valid(s) && robber != victim && robber in s.accounts && victim in s.accounts
    requires MaxSteal(s.accounts[victim].balance) > 0
    ensures Valid(RobSucceeds(s, robber, victim, now, d).store)
  {
    var rep := RobSucceeds(s, robber, victim, now, d).reply;
    var vlog := VictimLog(victim, rep.stolen, rep.victimNewBalance, now);
    var s1 := Post(s, victim, rep.victimNewBalance, vlog);
    PostKeepsAgreement(s, victim, rep.victimNewBalance, vlog);
    var rlog := RobberLog(robber, rep.net, rep.fence, rep.robberNewBalance, now);
    PostKeepsAgreement(s1, robber, rep.robberNewBalance, rlog);
  }

  // ---------------------------------------------------------------------
  // upgrade

  /** Rungs climbed so far: 0 before the first upgrade, 6 at Obsidian. */
  function Rung(t: Option<Tier>): (k: nat)
    ensures k <= |Tiers|
    ensures t.Some? ==> 1 <= k && Tiers[k - 1] == t.value
  {
    match t
    case None => 0
    case Some(Bronze) => 1
    case Some(Silver) => 2
    case Some(Gold) => 3
    case Some(Platinum) => 4
    case Some(Diamond) => 5
    case Some(Obsidian) => 6
  }

  datatype UpgradeReply = UpgradeReply(previous: Option<Tier>, newTier: Tier, cost: Mills, newBalance: Mills)

  /**
   * Moves the tier exactly one rung up the ladder for that rung's cost;
   * `MaxTier` at Obsidian and `Insufficient` when the balance is below the cost.
   */
  function Upgrade(s: Store, u: UserId, now: int): (r: Result<Step<UpgradeReply>>)
    ensures u !in s.accounts ==> r == Err(NoAccount)
    ensures u in s.accounts && s.accounts[u].tier == Some(Obsidian) ==> r == Err(MaxTier(Some(Obsidian)))
    ensures u in s.accounts && s.accounts[u].tier != Some(Obsidian) ==>
      var cost := TierCosts[Rung(s.accounts[u].tier)];
      (r.Err? <==> s.accounts[u].balance < cost) && (r.Err? ==> r.error == Insufficient(s.accounts[u].balance, cost))
    ensures r.Ok? ==>
      var a := s.accounts[u];
      var rep := r.value.reply;
      && Rung(Some(rep.newTier)) == Rung(a.tier) + 1
      && rep.cost == TierCosts[Rung(a.tier)] && a.balance >= rep.cost
      && rep.newBalance == RoundCents(a.balance - rep.cost)
      && r.value.store.accounts == s.accounts[u := a.(balance := rep.newBalance, tier := Some(rep.newTier))]
      && r.value.store.transactions == s.transactions + [Transaction(u, Fee, -rep.cost, rep.newBalance, now)]
      && SameRecords(s, r.value.store)
  {
    if u !in s.accounts then Err(NoAccount)
    else
      var a := s.accounts[u];
      var next := Rung(a.tier);
      if next >= |Tiers| then Err(MaxTier(a.tier))
      else
        var cost := TierCosts[next];
        if a.balance < cost then Err(Insufficient(a.balance, cost))
        else
          var newBalance := RoundCents(a.balance - cost);
          var s1 := s.(accounts := s.accounts[u := a.(tier := Some(Tiers[next]))]);
          Ok(Step(Post(s1, u, newBalance, [Transaction(u, Fee, -cost, newBalance, now)]),
                  UpgradeReply(a.tier, Tiers[next], cost, newBalance)))
  }

  lemma UpgradeKeepsValid(s: Store, u: UserId, now: int)
    requires Valid(s)
    ensures var r := Upgrade(s, u, now); r.Ok? ==> Valid(r.value.store)
  {
    var r := Upgrade(s, u, now);
    if r.Ok? {
      var rep := r.value.reply;
      var log := [Transaction(u, Fee, -rep.cost, rep.newBalance, now)];
      var a' := s.accounts[u].(balance := rep.newBalance, tier := Some(rep.newTier));
      assert r.value.store == Post(s, u, rep.newBalance, log).(accounts := s.accounts[u := a']);
      PostPatchKeepsValid(s, u, rep.newBalance, log, a');
    }
  }

  // ---------------------------------------------------------------------
  // gift

  /** The 20% generosity tax, rounded to the cent. */
  function GiftTax(amount: Mills): (t: Mills)
    ensures WholeCents(t)
    ensures 200 * t - 1000 <= 40 * amount < 200 * t + 1000
  {
    RoundScaled(amount, 20, 100)
  }

  datatype GiftReply = GiftReply(amount: Mills, tax: Mills, totalDeducted: Mills, senderNewBalance: Mills, recipientNewBalance: Mills)

  /** The sender's two entries: the gift itself, snapshotting the balance before tax, then the tax. */
  function GiftSenderLog(sender: UserId, amount: Mills, tax: Mills, senderBalance: Mills, senderNew: Mills, now: int): seq<Transaction> {
    [Transaction(sender, TxKind.Transfer, -amount, RoundCents(senderBalance - amount), now),
     Transaction(sender, Fee, -tax, senderNew, now + 1)]
  }

  /** The recipient's single entry. */
  function GiftRecipientLog(recipient: UserId, amount: Mills, recipientNew: Mills, now: int): seq<Transaction> {
    [Transaction(recipient, Deposit, amount, recipientNew, now)]
  }

  /**
   * A gift that passed the guards: the sender pays amount plus tax, the
   * recipient receives exactly the amount.
   */
  function GiftSucceeds(s: Store, sender: UserId, recipient: UserId, amount: Mills, now: int): (r: Step<GiftReply>)
    requires sender != recipient && sender in s.accounts && recipient in s.accounts
    ensures r.reply.amount == amount && r.reply.tax == GiftTax(amount)
    ensures r.reply.totalDeducted == RoundCents(amount + r.reply.tax)
    ensures r.reply.senderNewBalance == RoundCents(s.accounts[sender].balance - r.reply.totalDeducted)
    ensures r.reply.recipientNewBalance == RoundCents(s.accounts[recipient].balance + amount)
    ensures r.store == Post(Post(s, sender, r.reply.senderNewBalance,
                                 GiftSenderLog(sender, amount, r.reply.tax, s.accounts[sender].balance, r.reply.senderNewBalance, now)),
                            recipient, r.reply.recipientNewBalance,
                            GiftRecipientLog(recipient, amount, r.reply.recipientNewBalance, now))
  {
    var sa := s.accounts[sender];
    var ra := s.accounts[recipient];
    var tax := GiftTax(amount);
    var total := RoundCents(amount + tax);
    var senderNew := RoundCents(sa.balance - total);
    var recipientNew := RoundCents(ra.balance + amount);
    var s1 := Post(s, sender, senderNew, GiftSenderLog(sender, amount, tax, sa.balance, senderNew, now));
    Step(Post(s1, recipient, recipientNew, GiftRecipientLog(recipient, amount, recipientNew, now)),
         GiftReply(amount, tax, total, senderNew, recipientNew))
  }

  /**
   * Rejects self-gifts, then a missing sender, a missing recipient, and a
   * sender balance below amount plus tax; a frozen sender may still give.
   */
  function Gift(s: Store, sender: UserId, recipient: UserId, amount: Mills, now: int): (r: Result<Step<GiftReply>>)
    ensures sender == recipient ==> r == Err(SelfGift)
    ensures sender != recipient && sender !in s.accounts ==> r == Err(NoSenderAccount)
    ensures sender != recipient && sender in s.accounts && recipient !in s.accounts ==> r == Err(NoRecipientAccount)
    ensures sender != recipient && sender in s.accounts && recipient in s.accounts ==>
      var total := RoundCents(amount + GiftTax(amount));
      && (r.Err? <==> s.accounts[sender].balance < total)
      && (r.Err? ==> r.error == Insufficient(s.accounts[sender].balance, total))
      && (r.Ok? ==> r.value == GiftSucceeds(s, sender, recipient, amount, now))
  {
    if sender == recipient then Err(SelfGift)
    else if sender !in s.accounts then Err(NoSenderAccount)
    else if recipient !in s.accounts then Err(NoRecipientAccount)
    else
      var total := RoundCents(amount + GiftTax(amount));
      if s.accounts[sender].balance < total then Err(Insufficient(s.accounts[sender].balance, total))
      else Ok(GiftSucceeds(s, sender, recipient, amount, now))
  }

  /** On whole-cent inputs the sender loses amount plus tax and the recipient gains the amount. */
  lemma GiftWholeCents(s: Store, sender: UserId, recipient: UserId, amount: Mills, now: int)
    requires sender != recipient && sender in s.accounts && recipient in s.accounts
    requires WholeCents(s.accounts[sender].balance) && WholeCents(s.accounts[recipient].balance) && WholeCents(amount)
    ensures var rep := GiftSucceeds(s, sender, recipient, amount, now).reply;
            && rep.senderNewBalance == s.accounts[sender].balance - amount - rep.tax
            && rep.recipientNewBalance == s.accounts[recipient].balance + amount
  {
    var tax := GiftTax(amount);
    var sb := s.accounts[sender].balance;
    var rb := s.accounts[recipient].balance;
    WholeCentsArith(amount, tax);
    WholeCentsArith(sb, amount + tax);
    WholeCentsArith(rb, amount);
  }

  lemma GiftKeepsValid(s: Store, sender: UserId, recipient: UserId, amount: Mills, now: int)
    requires Valid(s)
    ensures var r := Gift(s, sender, recipient, amount, now); r.Ok? ==> Valid(r.value.store)
  {
    var r := Gift(s, sender, recipient, amount, now);
    if r.Ok? {
      var rep := r.value.reply;
      var slog := GiftSenderLog(sender, amount, rep.tax, s.accounts[sender].balance, rep.senderNewBalance, now);
      var s1 := Post(s, sender, rep.senderNewBalance, slog);
      PostKeepsAgreement(s, sender, rep.senderNewBalance, slog);
      PostKeepsAgreement(s1, recipient, rep.recipientNewBalance, GiftRecipientLog(recipient, amount, rep.recipientNewBalance, now));
    }
  }
}
