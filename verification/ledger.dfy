/**
 * The ledger store: every record kind the handlers read and write, the
 * tagged errors they return, and the invariants every handler keeps.
 *
 * A handler is a pure transition: it takes the store and explicit clock
 * and random inputs and either rejects with an `Error` (writing nothing:
 * the caller keeps the old store) or returns the new store and a reply.
 */
module Ledger {
  import opened Money

  type UserId = string
  type ChannelId = string

  datatype Option<T> = None | Some(value: T)

  /** Account status. The store accepts any tag; three have a meaning. */
  datatype Status = Active | Frozen | Suspicious | Custom(tag: string)

  /** The status a stored tag stands for. */
  function StatusOf(tag: string): (st: Status)
    ensures st.Custom? <==> tag !in {"active", "frozen", "suspicious"}
    ensures st.Custom? ==> st.tag == tag
  {
    if tag == "active" then Active
    else if tag == "frozen" then Frozen
    else if tag == "suspicious" then Suspicious
    else Custom(tag)
  }

  /** The upgrade ladder, lowest first. */
  datatype Tier = Bronze | Silver | Gold | Platinum | Diamond | Obsidian

  /**
   * An account. `lastBegAt` and `lastDailyAt` hold 0 until first set: the
   * handlers test them for truthiness, so 0 and "absent" behave alike.
   * `notifications` holds false while unset, as `!undefined` is true.
   */
  datatype Account = Account(
    accountNumber: string,
    balance: Mills,
    name: Option<string>,
    status: Status,
    tier: Option<Tier>,
    notifications: bool,
    createdAt: int,
    lastFeeAt: int,
    lastBegAt: int,
    lastDailyAt: int)

  datatype TxKind = Deposit | Withdrawal | Transfer | Fee

  /** One immutable entry of the transaction log (descriptions are not modelled). */
  datatype Transaction = Transaction(
    userId: UserId,
    kind: TxKind,
    amount: Mills,
    balanceAfter: Mills,
    createdAt: int)

  datatype LoanStatus = LoanActive | Paid | Defaulted

  /** A loan; `ratePercent` is the hourly rate in hundredths (15 means 15% per hour). */
  datatype Loan = Loan(
    userId: UserId,
    principal: Mills,
    ratePercent: int,
    totalOwed: Mills,
    takenAt: int,
    lastInterestAt: int,
    status: LoanStatus)

  datatype Job = Job(title: string, salary: Mills, hiredAt: int, lastWorkedAt: int)

  /** A crypto purchase; `units` counts 1e-5 of a coin, `boughtAt` is the price in mills. */
  datatype Holding = Holding(userId: UserId, coin: string, units: int, boughtAt: Mills, createdAt: int)

  /** An insurance record, at most one per user. */
  datatype Policy = Policy(plan: string, premium: Mills, coveredUntil: int, createdAt: int)

  datatype HeistStatus = Recruiting | Completed | Failed

  datatype Heist = Heist(
    channelId: ChannelId,
    startedBy: UserId,
    participants: seq<UserId>,
    status: HeistStatus,
    createdAt: int,
    completedAt: Option<int>)

  /**
   * The whole store. Accounts, jobs and policies are looked up by user and
   * hold at most one record each; the other tables keep every record ever
   * inserted, in insertion order.
   */
  datatype Store = Store(
    accounts: map<UserId, Account>,
    transactions: seq<Transaction>,
    loans: seq<Loan>,
    jobs: map<UserId, Job>,
    holdings: seq<Holding>,
    policies: map<UserId, Policy>,
    heists: seq<Heist>)

  /** The tagged rejections; the games report no `needed` amount, so theirs is the bet. */
  datatype Error =
    | NoAccount
    | AccountFrozen
    | Insufficient(balance: Mills, needed: Mills)
    | SelfRob
    | NoVictim
    | VictimBroke
    | MaxTier(tier: Option<Tier>)
    | SelfGift
    | NoSenderAccount
    | NoRecipientAccount
    | HeistActive
    | NoHeist
    | AlreadyJoined
    | HeistFull
    | NotStarter
    | NeedMoreParticipants
    | MinLoan
    | MaxLoan
    | ExistingLoan
    | NoLoan
    | Cooldown(remaining: int)
    | DailyCooldown(remainingMs: int, hours: int, minutes: int)
    | AlreadyEmployed(title: string)
    | NoJob
    | UnknownCoin
    | NoHoldings
    | UnknownPlan

  datatype Result<T> = Ok(value: T) | Err(error: Error)

  /** A successful transition: the new store and what the handler returns. */
  datatype Step<R> = Step(store: Store, reply: R)

  /** `Math.ceil(ms / 1000)` for a positive wait: the whole seconds left, rounded up. */
  function SecondsUntil(ms: int): (sec: int)
    requires ms > 0
    ensures sec >= 1 && 1000 * (sec - 1) < ms <= 1000 * sec
  {
    (ms + 999) / 1000
  }

  // ---------------------------------------------------------------------
  // Lookups

  /** The first index of `xs` whose element satisfies `p`, as `.first()` on a filtered query. */
  function FirstIndex<T>(xs: seq<T>, p: T -> bool): (r: Option<nat>)
    ensures r.Some? ==> r.value < |xs| && p(xs[r.value])
    ensures r.Some? ==> forall k :: 0 <= k < r.value ==> !p(xs[k])
    ensures r.None? ==> forall k :: 0 <= k < |xs| ==> !p(xs[k])
  {
    if |xs| == 0 then None
    else if p(xs[0]) then Some(0)
    else match FirstIndex(xs[1..], p)
      case None => None
      case Some(i) => Some(i + 1)
  }

  predicate IsActiveLoanOf(l: Loan, u: UserId) {
    l.userId == u && l.status == LoanActive
  }

  /** The user's active loan, if any. */
  function ActiveLoan(loans: seq<Loan>, u: UserId): (r: Option<nat>)
    ensures r.Some? ==> r.value < |loans| && IsActiveLoanOf(loans[r.value], u)
    ensures r.Some? ==> forall k :: 0 <= k < r.value ==> !IsActiveLoanOf(loans[k], u)
    ensures r.None? <==> forall k :: 0 <= k < |loans| ==> !IsActiveLoanOf(loans[k], u)
  {
    FirstIndex(loans, (l: Loan) => IsActiveLoanOf(l, u))
  }

  predicate IsRecruitingIn(h: Heist, ch: ChannelId) {
    h.channelId == ch && h.status == Recruiting
  }

  /** The channel's recruiting heist, if any. */
  function RecruitingHeist(heists: seq<Heist>, ch: ChannelId): (r: Option<nat>)
    ensures r.Some? ==> r.value < |heists| && IsRecruitingIn(heists[r.value], ch)
    ensures r.Some? ==> forall k :: 0 <= k < r.value ==> !IsRecruitingIn(heists[k], ch)
    ensures r.None? <==> forall k :: 0 <= k < |heists| ==> !IsRecruitingIn(heists[k], ch)
  {
    FirstIndex(heists, (h: Heist) => IsRecruitingIn(h, ch))
  }

  /** The elements of `xs` that satisfy `p`, in their original order. */
  function Filter<T(!new)>(xs: seq<T>, p: T -> bool): (r: seq<T>)
    ensures |r| <= |xs|
    ensures forall x :: x in r <==> x in xs && p(x)
    ensures forall k :: 0 <= k < |r| ==> p(r[k])
  {
    if xs == [] then []
    else if p(xs[0]) then [xs[0]] + Filter(xs[1..], p)
    else Filter(xs[1..], p)
  }

  /** Filtering by a test and by its negation splits a sequence: nothing is lost or duplicated. */
  lemma {:induction false} FilterSplit<T(!new)>(xs: seq<T>, p: T -> bool, q: T -> bool)
    requires forall x :: q(x) == !p(x)
    ensures multiset(Filter(xs, p)) + multiset(Filter(xs, q)) == multiset(xs)
    ensures |Filter(xs, p)| + |Filter(xs, q)| == |xs|
  {
    if xs != [] {
      FilterSplit(xs[1..], p, q);
      assert xs == [xs[0]] + xs[1..];
    }
  }

  // ---------------------------------------------------------------------
  // Writes

  /** Every table other than accounts and the log is unchanged. */
  predicate SameRecords(s: Store, s': Store) {
    s'.loans == s.loans && s'.jobs == s.jobs && s'.holdings == s.holdings
    && s'.policies == s.policies && s'.heists == s.heists
  }

  /** Patch the user's balance and append transactions, as one atomic write. */
  function Post(s: Store, u: UserId, balance: Mills, txs: seq<Transaction>): (s': Store)
    requires u in s.accounts
    ensures s'.accounts.Keys == s.accounts.Keys
    ensures s'.accounts[u] == s.accounts[u].(balance := balance)
    ensures forall v :: v in s.accounts && v != u ==> s'.accounts[v] == s.accounts[v]
    ensures s'.transactions == s.transactions + txs
    ensures s'.loans == s.loans && s'.jobs == s.jobs && s'.holdings == s.holdings
    ensures s'.policies == s.policies && s'.heists == s.heists
  {
    s.(accounts := s.accounts[u := s.accounts[u].(balance := balance)],
       transactions := s.transactions + txs)
  }

  // ---------------------------------------------------------------------
  // Invariants

  /** The last transaction logged for `u`, if any. */
  function LastFor(log: seq<Transaction>, u: UserId): (r: Option<Transaction>)
    ensures r.Some? ==> r.value in log && r.value.userId == u
    ensures r.None? <==> forall k :: 0 <= k < |log| ==> log[k].userId != u
  {
    if |log| == 0 then None
    else if log[|log| - 1].userId == u then Some(log[|log| - 1])
    else LastFor(log[..|log| - 1], u)
  }

  /** The log's latest snapshot for `u`, if there is one, equals `balance`. */
  predicate Agrees(log: seq<Transaction>, u: UserId, balance: Mills) {
    match LastFor(log, u)
    case None => true
    case Some(t) => t.balanceAfter == balance
  }

  /** Every account's balance is the `balanceAfter` of its latest transaction. */
  predicate LedgerAgrees(s: Store) {
    forall u :: u in s.accounts ==> Agrees(s.transactions, u, s.accounts[u].balance)
  }

  predicate AtMostOneActiveLoan(loans: seq<Loan>) {
    forall i, j :: 0 <= i < j < |loans| && loans[i].status == LoanActive && loans[j].status == LoanActive
      ==> loans[i].userId != loans[j].userId
  }

  predicate NoDuplicates<T(==)>(xs: seq<T>) {
    forall i, j :: 0 <= i < j < |xs| ==> xs[i] != xs[j]
  }

  /** A repeat-free sequence's head does not recur, and its tail is repeat-free. */
  lemma NoDuplicatesTail<T>(xs: seq<T>)
    requires |xs| > 0 && NoDuplicates(xs)
    ensures xs[0] !in xs[1..] && NoDuplicates(xs[1..])
  {
    forall k | 0 <= k < |xs| - 1 ensures xs[1..][k] != xs[0] {
      assert xs[k + 1] != xs[0];
    }
    forall i, j | 0 <= i < j < |xs| - 1 ensures xs[1..][i] != xs[1..][j] {
      assert xs[i + 1] != xs[j + 1];
    }
  }

  /** Participants are distinct, between one and five, and led by the organizer. */
  predicate WellFormedHeist(h: Heist) {
    && 1 <= |h.participants| <= 5
    && h.participants[0] == h.startedBy
    && NoDuplicates(h.participants)
  }

  predicate OneRecruitingPerChannel(heists: seq<Heist>) {
    forall i, j :: 0 <= i < j < |heists| && heists[i].status == Recruiting && heists[j].status == Recruiting
      ==> heists[i].channelId != heists[j].channelId
  }

  predicate HeistsValid(heists: seq<Heist>) {
    && (forall k :: 0 <= k < |heists| ==> WellFormedHeist(heists[k]))
    && OneRecruitingPerChannel(heists)
  }

  /** The invariant every handler preserves. */
  predicate Valid(s: Store) {
    && LedgerAgrees(s)
    && AtMostOneActiveLoan(s.loans)
    && HeistsValid(s.heists)
  }

  /** The empty store. */
  const Empty: Store := Store(map[], [], [], map[], [], map[], [])

  lemma EmptyIsValid()
    ensures Valid(Empty)
  {
  }

  // ---------------------------------------------------------------------
  // Ledger agreement lemmas

  /** Appending transactions that all belong to `u` leaves every other user's latest entry alone. */
  lemma {:induction false} LastForSkips(log: seq<Transaction>, txs: seq<Transaction>, u: UserId, v: UserId)
    requires forall t :: t in txs ==> t.userId == u
    requires v != u
    ensures LastFor(log + txs, v) == LastFor(log, v)
    decreases |txs|
  {
    if |txs| > 0 {
      var txs' := txs[..|txs| - 1];
      assert (log + txs)[..|log + txs| - 1] == log + txs';
      LastForSkips(log, txs', u, v);
    } else {
      assert log + txs == log;
    }
  }

  /** The latest entry of a concatenation comes from the suffix when the suffix has one. */
  lemma {:induction false} LastForAppend(log: seq<Transaction>, txs: seq<Transaction>, u: UserId)
    ensures LastFor(log + txs, u) == (if LastFor(txs, u).Some? then LastFor(txs, u) else LastFor(log, u))
    decreases |txs|
  {
    if |txs| == 0 {
      assert log + txs == log;
    } else {
      var txs' := txs[..|txs| - 1];
      assert (log + txs)[..|log + txs| - 1] == log + txs';
      LastForAppend(log, txs', u);
    }
  }

  /**
   * Posting to `u` keeps the ledger in agreement when the last posted
   * transaction carries the new balance; `u` itself need not agree before.
   */
  lemma PostKeepsAgreement(s: Store, u: UserId, balance: Mills, txs: seq<Transaction>)
    requires u in s.accounts
    requires forall v :: v in s.accounts && v != u ==> Agrees(s.transactions, v, s.accounts[v].balance)
    requires |txs| > 0 && txs[|txs| - 1].balanceAfter == balance
    requires forall t :: t in txs ==> t.userId == u
    ensures LedgerAgrees(Post(s, u, balance, txs))
  {
    var s' := Post(s, u, balance, txs);
    forall v | v in s'.accounts
      ensures Agrees(s'.transactions, v, s'.accounts[v].balance)
    {
      if v == u {
        assert txs[|txs| - 1] in txs;
        assert s'.transactions[|s'.transactions| - 1] == txs[|txs| - 1];
      } else {
        LastForSkips(s.transactions, txs, u, v);
      }
    }
  }

  /** Posting to one account keeps the store valid when the last posted entry carries the new balance. */
  lemma PostKeepsValid(s: Store, u: UserId, balance: Mills, txs: seq<Transaction>)
    requires Valid(s) && u in s.accounts
    requires |txs| > 0 && txs[|txs| - 1].balanceAfter == balance
    requires forall t :: t in txs ==> t.userId == u
    ensures Valid(Post(s, u, balance, txs))
  {
    PostKeepsAgreement(s, u, balance, txs);
  }

  /** Posting and then replacing the account record by one with the posted balance keeps the store valid. */
  lemma PostPatchKeepsValid(s: Store, u: UserId, balance: Mills, txs: seq<Transaction>, a: Account)
    requires Valid(s) && u in s.accounts
    requires |txs| > 0 && txs[|txs| - 1].balanceAfter == balance
    requires forall t :: t in txs ==> t.userId == u
    requires a.balance == balance
    ensures Valid(Post(s, u, balance, txs).(accounts := s.accounts[u := a]))
  {
    var p := Post(s, u, balance, txs);
    PostKeepsValid(s, u, balance, txs);
    PatchKeepsAgreement(p, p.(accounts := s.accounts[u := a]));
  }

  /** Posting to a user and replacing the loans by a list with at most one active loan each keeps the store valid. */
  lemma PostLoansKeepsValid(s: Store, u: UserId, balance: Mills, txs: seq<Transaction>, ls: seq<Loan>)
    requires Valid(s) && u in s.accounts
    requires |txs| > 0 && txs[|txs| - 1].balanceAfter == balance
    requires forall t :: t in txs ==> t.userId == u
    requires AtMostOneActiveLoan(ls)
    ensures Valid(Post(s, u, balance, txs).(loans := ls))
  {
    PostKeepsAgreement(s, u, balance, txs);
  }

  /** As `PostLoansKeepsValid`, when the user's record is also patched, its balance kept as posted. */
  lemma PostPatchLoansKeepsValid(s: Store, u: UserId, balance: Mills, txs: seq<Transaction>, a: Account, ls: seq<Loan>)
    requires Valid(s) && u in s.accounts
    requires |txs| > 0 && txs[|txs| - 1].balanceAfter == balance
    requires forall t :: t in txs ==> t.userId == u
    requires a.balance == balance && AtMostOneActiveLoan(ls)
    ensures Valid(Post(s, u, balance, txs).(accounts := s.accounts[u := a], loans := ls))
  {
    var p := Post(s, u, balance, txs);
    PostKeepsAgreement(s, u, balance, txs);
    PatchKeepsAgreement(p, p.(accounts := s.accounts[u := a], loans := ls));
  }

  /** A new loan for a user with no active loan keeps at most one active loan per user. */
  lemma AddLoanKeepsOne(loans: seq<Loan>, l: Loan)
    requires AtMostOneActiveLoan(loans)
    requires ActiveLoan(loans, l.userId).None?
    ensures AtMostOneActiveLoan(loans + [l])
  {
    var ls := loans + [l];
    forall i, j | 0 <= i < j < |ls| && ls[i].status == LoanActive && ls[j].status == LoanActive
      ensures ls[i].userId != ls[j].userId
    {
      if j == |loans| {
        assert !IsActiveLoanOf(loans[i], l.userId);
      } else {
        assert ls[i] == loans[i] && ls[j] == loans[j];
      }
    }
  }

  /** Validity looks only at accounts, the log, loans and heists: jobs, holdings and policies may change freely. */
  lemma ValidIgnoresRecords(s: Store, s': Store)
    requires Valid(s)
    requires s'.accounts == s.accounts && s'.transactions == s.transactions
    requires s'.loans == s.loans && s'.heists == s.heists
    ensures Valid(s')
  {
  }

  /** A patch that leaves every balance alone and logs nothing keeps agreement. */
  lemma PatchKeepsAgreement(s: Store, s': Store)
    requires LedgerAgrees(s)
    requires s'.transactions == s.transactions
    requires s'.accounts.Keys <= s.accounts.Keys
    requires forall v :: v in s'.accounts ==> s'.accounts[v].balance == s.accounts[v].balance
    ensures LedgerAgrees(s')
  {
  }
}
