/**
 * Insurance: three plans bought for a premium plus an administration fee,
 * one policy record per user renewed in place, and claims that are always
 * denied for a processing fee.
 */
module Insurance {
  import opened Money
  import opened Ledger

  datatype Plan = Plan(name: string, premium: Mills, duration: int)

  const AdminFee: Mills := 30
  const ClaimFee: Mills := 20

  const PlanKeys: set<string> := {"basic", "silver", "gold"}

  /** The plan a lower-case key names, among the three own keys of the plan table. */
  function LookupPlan(key: string): (p: Option<Plan>)
    ensures p.Some? <==> key in PlanKeys
    ensures p.Some? ==> WholeCents(p.value.premium) && p.value.premium > 0 && p.value.duration > 0
    ensures key == "basic" ==> p == Some(Plan("Basic (covers nothing)", 100, 3600000))
    ensures key == "silver" ==> p == Some(Plan("Silver (covers almost nothing)", 250, 14400000))
    ensures key == "gold" ==> p == Some(Plan("Gold (still covers nothing)", 500, 86400000))
  {
    if key == "basic" then Some(Plan("Basic (covers nothing)", 100, 3600000))
    else if key == "silver" then Some(Plan("Silver (covers almost nothing)", 250, 14400000))
    else if key == "gold" then Some(Plan("Gold (still covers nothing)", 500, 86400000))
    else None
  }

  /** `toLowerCase` on one character, as far as it can matter for a lookup: ASCII capitals. */
  function LowerChar(c: char): (l: char)
    ensures !('A' <= l <= 'Z')
    ensures 'A' <= c <= 'Z' ==> l as int == c as int + 32
    ensures !('A' <= c <= 'Z') ==> l == c
  {
    if 'A' <= c <= 'Z' then (c as int + 32) as char else c
  }

  function Lower(s: string): (t: string)
    ensures |t| == |s|
    ensures forall i :: 0 <= i < |s| ==> t[i] == LowerChar(s[i])
  {
    seq(|s|, i requires 0 <= i < |s| => LowerChar(s[i]))
  }

  // ---------------------------------------------------------------------
  // The plan lookup as written, and what it lets through

  /**
   * A JavaScript number as far as the purchase arithmetic needs it: an
   * amount in mills, or NaN, which every sum and rounding propagates and
   * every comparison is false against.
   */
  datatype Num = Num(mills: Mills) | NaN

  /**
   * What indexing the plan table with a key yields: one of its own plans,
   * a member every object inherits (the `constructor` function and the
   * `__proto__` object, both truthy and both without a premium), or
   * nothing. Inherited members whose names contain capitals cannot be
   * reached, because the key is lower-cased first.
   */
  datatype PlanEntry = Listed(plan: Plan) | Inherited | Absent

  function PlanEntryAsWritten(key: string): (e: PlanEntry)
    ensures e.Listed? <==> key in PlanKeys
    ensures e.Listed? ==> Some(e.plan) == LookupPlan(key)
    ensures e.Inherited? <==> key == "constructor" || key == "__proto__"
  {
    match LookupPlan(key)
    case Some(p) => Listed(p)
    case None => if key == "constructor" || key == "__proto__" then Inherited else Absent
  }

  /** What the purchase guards decide: reject, or write a new balance. */
  datatype Guard = RejectUnknown | RejectInsufficient(needed: Num) | Proceed(newBalance: Num)

  function AddNum(a: Num, b: Num): Num {
    if a.NaN? || b.NaN? then NaN else Num(a.mills + b.mills)
  }

  function SubNum(a: Num, b: Num): Num {
    if a.NaN? || b.NaN? then NaN else Num(a.mills - b.mills)
  }

  function RoundNum(a: Num): Num {
    if a.NaN? then NaN else Num(RoundCents(a.mills))
  }

  /** `balance < x`, false against NaN. */
  function Below(balance: Mills, x: Num): bool {
    x.Num? && balance < x.mills
  }

  /**
   * The guards of a purchase exactly as written: any truthy entry passes
   * the plan check; the premium of an inherited entry is undefined, so the
   * total cost, the comparison against it and the new balance all follow
   * NaN.
   */
  function PurchaseGuardAsWritten(balance: Mills, key: string): (g: Guard)
    ensures g == RejectUnknown <==> PlanEntryAsWritten(key).Absent?
    ensures PlanEntryAsWritten(key).Listed? ==>
      var p := PlanEntryAsWritten(key).plan.premium;
      && (g.RejectInsufficient? <==> balance < p + AdminFee)
      && (g.Proceed? && WholeCents(balance) ==> g.newBalance == Num(balance - p - AdminFee))
    ensures PlanEntryAsWritten(key).Inherited? ==> g == Proceed(NaN)
  {
    var entry := PlanEntryAsWritten(key);
    if entry.Absent? then RejectUnknown
    else
      var premium := if entry.Listed? then Num(entry.plan.premium) else NaN;
      var cost := RoundNum(AddNum(premium, Num(AdminFee)));
      if Below(balance, cost) then RejectInsufficient(cost)
      else
        var p := if entry.Listed? then entry.plan.premium else 0;
        WholeCentsArith(p, AdminFee);
        WholeCentsArith(balance, p);
        WholeCentsArith(balance - p, AdminFee);
        Proceed(RoundNum(SubNum(RoundNum(SubNum(Num(balance), premium)), Num(AdminFee))))
  }

  /**
   * The plan names "constructor" and "__proto__" pass every guard, whatever
   * the balance, and overwrite the balance with NaN.
   */
  lemma InheritedKeysCorruptBalance(balance: Mills)
    ensures PurchaseGuardAsWritten(balance, "constructor") == Proceed(NaN)
    ensures PurchaseGuardAsWritten(balance, "__proto__") == Proceed(NaN)
    ensures Lower("Constructor") == "constructor" && Lower("__PROTO__") == "__proto__"
  {
    assert Lower("Constructor") == "constructor";
    assert Lower("__PROTO__") == "__proto__";
  }

  /**
   * The corrected lookup agrees with the table on its own keys and refuses
   * the inherited members.
   */
  lemma LookupPlanRefusesInherited(key: string)
    ensures PlanEntryAsWritten(key).Listed? ==> LookupPlan(key) == Some(PlanEntryAsWritten(key).plan)
    ensures PlanEntryAsWritten(key).Inherited? ==> LookupPlan(key).None?
    ensures LookupPlan(key).Some? ==> PlanEntryAsWritten(key).Listed?
  {
  }

  // ---------------------------------------------------------------------
  // Handlers

  datatype PlanView = PlanView(policy: Policy, active: bool)

  /** The user's policy, if any, and whether it still covers `now` (strictly before its end). */
  function GetPlan(s: Store, u: UserId, now: int): (v: Option<PlanView>)
    ensures v.None? <==> u !in s.policies
    ensures v.Some? ==> v.value.policy == s.policies[u] && (v.value.active <==> now < s.policies[u].coveredUntil)
  {
    if u !in s.policies then None
    else Some(PlanView(s.policies[u], s.policies[u].coveredUntil > now))
  }

  datatype PurchaseReply = PurchaseReply(plan: string, premium: Mills, adminFee: Mills, totalCost: Mills, coveredUntil: int, newBalance: Mills)

  /**
   * Rejects a missing account, then a plan name that is not one of the
   * three (after lower-casing), then a balance below premium plus fee; a
   * frozen account may buy. Otherwise debits the premium and then the fee,
   * renews the user's policy in place (keeping its creation time) or
   * creates one, and logs both debits.
   */
  function Purchase(s: Store, u: UserId, plan: string, now: int): (r: Result<Step<PurchaseReply>>)
    ensures u !in s.accounts ==> r == Err(NoAccount)
    ensures u in s.accounts && Lower(plan) !in PlanKeys ==> r == Err(UnknownPlan)
    ensures u in s.accounts && Lower(plan) in PlanKeys ==>
      var b := s.accounts[u].balance;
      var cost := LookupPlan(Lower(plan)).value.premium + AdminFee;
      && (r.Err? <==> b < cost)
      && (r.Err? ==> r.error == Insufficient(b, cost))
    ensures r.Ok? ==>
      && u in s.accounts && Lower(plan) in PlanKeys
      && r.value == Bought(s, u, Lower(plan), LookupPlan(Lower(plan)).value, now)
  {
    if u !in s.accounts then Err(NoAccount)
    else
      var key := Lower(plan);
      match LookupPlan(key)
      case None => Err(UnknownPlan)
      case Some(p) =>
        var b := s.accounts[u].balance;
        WholeCentsArith(p.premium, AdminFee);
        var cost := RoundCents(p.premium + AdminFee);
        if b < cost then Err(Insufficient(b, cost))
        else Ok(Bought(s, u, key, p, now))
  }

  /** The premium debited at `now`, then the fee a millisecond later. */
  function PurchaseLog(u: UserId, premium: Mills, after: Mills, nb: Mills, now: int): (log: seq<Transaction>)
    ensures |log| == 2 && log[1].balanceAfter == nb
    ensures forall t :: t in log ==> t.userId == u
  {
    [Transaction(u, Withdrawal, -premium, after, now), Transaction(u, Fee, -AdminFee, nb, now + 1)]
  }

  /**
   * A purchase that passed the guards: debits the premium and then the
   * fee, each rounded to the cent, logs both, and renews the user's policy
   * in place (keeping its creation time) or creates one; no other account,
   * policy or table changes.
   */
  function Bought(s: Store, u: UserId, key: string, p: Plan, now: int): (st: Step<PurchaseReply>)
    requires u in s.accounts && LookupPlan(key) == Some(p)
    ensures st.reply.plan == p.name && st.reply.premium == p.premium && st.reply.adminFee == AdminFee
    ensures st.reply.totalCost == p.premium + AdminFee && st.reply.coveredUntil == now + p.duration
    ensures WholeCents(st.reply.newBalance)
    ensures WholeCents(s.accounts[u].balance) ==> st.reply.newBalance == s.accounts[u].balance - p.premium - AdminFee
    ensures st.store.accounts.Keys == s.accounts.Keys
    ensures forall v :: v in s.accounts && v != u ==> st.store.accounts[v] == s.accounts[v]
    ensures st.store.accounts[u] == s.accounts[u].(balance := st.reply.newBalance)
    ensures st.store.policies.Keys == s.policies.Keys + {u}
    ensures forall v :: v in s.policies && v != u ==> st.store.policies[v] == s.policies[v]
    ensures st.store.policies[u].plan == key && st.store.policies[u].premium == p.premium
    ensures st.store.policies[u].coveredUntil == now + p.duration
    ensures st.store.policies[u].createdAt == if u in s.policies then s.policies[u].createdAt else now
    ensures st.store.loans == s.loans && st.store.jobs == s.jobs
    ensures st.store.holdings == s.holdings && st.store.heists == s.heists
    ensures |st.store.transactions| == |s.transactions| + 2
    ensures st.store.transactions[..|s.transactions|] == s.transactions
    ensures st.store.transactions[|s.transactions|]
            == Transaction(u, Withdrawal, -p.premium, RoundCents(s.accounts[u].balance - p.premium), now)
    ensures st.store.transactions[|s.transactions| + 1] == Transaction(u, Fee, -AdminFee, st.reply.newBalance, now + 1)
  {
    var b := s.accounts[u].balance;
    WholeCentsArith(p.premium, AdminFee);
    var after := RoundCents(b - p.premium);
    var nb := RoundCents(after - AdminFee);
    var policy := if u in s.policies then s.policies[u].(plan := key, premium := p.premium, coveredUntil := now + p.duration)
                  else Policy(key, p.premium, now + p.duration, now);
    WholeCentsArith(b, p.premium);
    WholeCentsArith(after, AdminFee);
    var log := PurchaseLog(u, p.premium, after, nb, now);
    assert log == [Transaction(u, Withdrawal, -p.premium, after, now), Transaction(u, Fee, -AdminFee, nb, now + 1)];
    Step(Post(s, u, nb, log).(policies := s.policies[u := policy]),
         PurchaseReply(p.name, p.premium, AdminFee, RoundCents(p.premium + AdminFee), now + p.duration, nb))
  }

  /**
   * A purchase covers exactly the plan's duration from now, and for a
   * whole-cent balance it costs exactly premium plus fee and leaves the
   * balance non-negative.
   */
  lemma PurchaseCovers(s: Store, u: UserId, plan: string, now: int, t: int)
    requires Purchase(s, u, plan, now).Ok?
    ensures var r := Purchase(s, u, plan, now).value;
            var v := GetPlan(r.store, u, t);
            && v.Some? && (v.value.active <==> t < now + LookupPlan(Lower(plan)).value.duration)
            && (WholeCents(s.accounts[u].balance) ==>
                  r.reply.newBalance == s.accounts[u].balance - r.reply.totalCost && r.reply.newBalance >= 0)
  {
    var p := LookupPlan(Lower(plan)).value;
    var b := s.accounts[u].balance;
    WholeCentsArith(b, p.premium);
    WholeCentsArith(b - p.premium, AdminFee);
  }

  /** A plan name outside the table is refused even when the object would inherit it. */
  lemma PurchaseRefusesInherited(s: Store, u: UserId, now: int)
    requires u in s.accounts
    ensures Purchase(s, u, "constructor", now) == Err(UnknownPlan)
    ensures Purchase(s, u, "__proto__", now) == Err(UnknownPlan)
  {
    assert Lower("constructor") == "constructor";
    assert Lower("__proto__") == "__proto__";
  }

  lemma PurchaseKeepsValid(s: Store, u: UserId, plan: string, now: int)
    requires Valid(s)
    ensures var r := Purchase(s, u, plan, now); r.Ok? ==> Valid(r.value.store)
  {
    if Purchase(s, u, plan, now).Ok? {
      BoughtKeepsValid(s, u, Lower(plan), LookupPlan(Lower(plan)).value, now);
    }
  }

  lemma BoughtKeepsValid(s: Store, u: UserId, key: string, p: Plan, now: int)
    requires Valid(s) && u in s.accounts && LookupPlan(key) == Some(p)
    ensures Valid(Bought(s, u, key, p, now).store)
  {
    var st := Bought(s, u, key, p, now);
    var log := PurchaseLog(u, p.premium, RoundCents(s.accounts[u].balance - p.premium), st.reply.newBalance, now);
    var posted := Post(s, u, st.reply.newBalance, log);
    assert st.store == posted.(policies := st.store.policies);
    PostKeepsValid(s, u, st.reply.newBalance, log);
    ValidIgnoresRecords(posted, st.store);
  }

  const DenialReasons: seq<string> := [
    "Pre-existing condition",
    "Act of Southbag",
    "Insufficient documentation",
    "Claim filed on a day ending in Y",
    "Your policy explicitly excludes this",
    "We lost your paperwork",
    "Claim denied by our AI (it doesn't like you)",
    "Force majeure (we don't feel like it)"
  ]

  datatype ClaimReply = ClaimReply(denied: bool, reason: string, claimFee: Mills, newBalance: Mills)

  /**
   * Rejects a missing account only. Every claim, insured or not and
   * whatever the balance, is charged the processing fee, logged, and
   * denied for a drawn reason; nothing is paid out and the policy is left
   * alone.
   */
  function Claim(s: Store, u: UserId, now: int, reasonDraw: Unit): (r: Result<Step<ClaimReply>>)
    ensures r.Err? <==> u !in s.accounts
    ensures r.Err? ==> r.error == NoAccount
    ensures r.Ok? ==>
      var nb := RoundCents(s.accounts[u].balance - ClaimFee);
      && r.value.reply.denied
      && r.value.reply.reason in DenialReasons
      && r.value.reply.claimFee == ClaimFee
      && r.value.reply.newBalance == nb
      && r.value.store == Post(s, u, nb, [Transaction(u, Fee, -ClaimFee, nb, now)])
  {
    if u !in s.accounts then Err(NoAccount)
    else
      var nb := RoundCents(s.accounts[u].balance - ClaimFee);
      Ok(Step(Post(s, u, nb, [Transaction(u, Fee, -ClaimFee, nb, now)]),
              ClaimReply(true, DenialReasons[PickIndex(reasonDraw, |DenialReasons|)], ClaimFee, nb)))
  }

  /** A claim only ever costs: a whole-cent balance drops by exactly two cents, even below zero. */
  lemma ClaimOnlyCosts(s: Store, u: UserId, now: int, reasonDraw: Unit)
    requires Claim(s, u, now, reasonDraw).Ok?
    requires WholeCents(s.accounts[u].balance)
    ensures Claim(s, u, now, reasonDraw).value.reply.newBalance == s.accounts[u].balance - ClaimFee
    ensures Claim(s, u, now, reasonDraw).value.store.policies == s.policies
  {
    WholeCentsArith(s.accounts[u].balance, ClaimFee);
  }

  lemma ClaimKeepsValid(s: Store, u: UserId, now: int, reasonDraw: Unit)
    requires Valid(s)
    ensures var r := Claim(s, u, now, reasonDraw); r.Ok? ==> Valid(r.value.store)
  {
    var r := Claim(s, u, now, reasonDraw);
    if r.Ok? {
      var nb := RoundCents(s.accounts[u].balance - ClaimFee);
      var log := [Transaction(u, Fee, -ClaimFee, nb, now)];
      assert r.value.store == Post(s, u, nb, log);
      PostKeepsValid(s, u, nb, log);
    }
  }
}
