/**
 * Channel heists: an organizer opens one, others join, and the organizer
 * executes it. A channel has at most one recruiting heist at a time; a
 * heist has between one and five distinct participants, organizer first.
 */
module Heists {
  import opened Money
  import opened Ledger

  /** Fee to plan a heist, 0.05. */
  const PlanningFee: Mills := 50

  /** Fee to join a heist, 0.03. */
  const EquipmentFee: Mills := 30

  /** Most participants a heist admits. */
  const MaxCrew: nat := 5

  /** The one fee entry a heist charge logs, with its balance patch. */
  function ChargeHeistFee(s: Store, u: UserId, fee: Mills, now: int): (s': Store)
    requires u in s.accounts
    ensures s' == Post(s, u, RoundCents(s.accounts[u].balance - fee),
                       [Transaction(u, Fee, -fee, RoundCents(s.accounts[u].balance - fee), now)])
    ensures WholeCents(s.accounts[u].balance) && WholeCents(fee) ==> s'.accounts[u].balance == s.accounts[u].balance - fee
  {
    WholeCentsArith(s.accounts[u].balance, fee);
    var nb := RoundCents(s.accounts[u].balance - fee);
    Post(s, u, nb, [Transaction(u, Fee, -fee, nb, now)])
  }

  lemma ChargeHeistFeeKeepsAgreement(s: Store, u: UserId, fee: Mills, now: int)
    requires LedgerAgrees(s) && u in s.accounts
    ensures LedgerAgrees(ChargeHeistFee(s, u, fee, now))
  {
    var nb := RoundCents(s.accounts[u].balance - fee);
    PostKeepsAgreement(s, u, nb, [Transaction(u, Fee, -fee, nb, now)]);
  }

  // ---------------------------------------------------------------------
  // start

  /**
   * Rejects a missing or frozen organizer, then a channel that already has
   * a recruiting heist. Otherwise charges the planning fee and opens a
   * heist with the organizer as its only participant.
   */
  function Start(s: Store, u: UserId, ch: ChannelId, now: int): (r: Result<Step<nat>>)
    ensures u !in s.accounts ==> r == Err(NoAccount)
    ensures u in s.accounts && s.accounts[u].status == Frozen ==> r == Err(AccountFrozen)
    ensures u in s.accounts && s.accounts[u].status != Frozen ==>
      (r == Err(HeistActive) <==> RecruitingHeist(s.heists, ch).Some?)
    ensures u in s.accounts && s.accounts[u].status != Frozen && RecruitingHeist(s.heists, ch).None? ==> r.Ok?
    ensures r.Ok? ==>
      && u in s.accounts && s.accounts[u].status != Frozen
      && RecruitingHeist(s.heists, ch).None?
      && r.value.reply == |s.heists|
      && r.value.store == ChargeHeistFee(s, u, PlanningFee, now).(heists := s.heists + [Heist(ch, u, [u], Recruiting, now, None)])
  {
    if u !in s.accounts then Err(NoAccount)
    else if s.accounts[u].status == Frozen then Err(AccountFrozen)
    else if RecruitingHeist(s.heists, ch).Some? then Err(HeistActive)
    else
      var s1 := ChargeHeistFee(s, u, PlanningFee, now);
      Ok(Step(s1.(heists := s.heists + [Heist(ch, u, [u], Recruiting, now, None)]), |s.heists|))
  }

  /** After a start the channel's recruiting heist is the new one, led by the organizer. */
  lemma StartOpensRecruiting(s: Store, u: UserId, ch: ChannelId, now: int)
    requires var r := Start(s, u, ch, now); r.Ok?
    ensures var r := Start(s, u, ch, now);
            && RecruitingHeist(r.value.store.heists, ch) == Some(|s.heists|)
            && r.value.store.heists[|s.heists|].participants == [u]
  {
    var hs := Start(s, u, ch, now).value.store.heists;
    assert forall k :: 0 <= k < |s.heists| ==> hs[k] == s.heists[k];
    assert IsRecruitingIn(hs[|s.heists|], ch);
    var i := RecruitingHeist(hs, ch);
    assert i.Some?;
    assert forall k :: 0 <= k < |s.heists| ==> !IsRecruitingIn(hs[k], ch);
  }

  lemma StartKeepsValid(s: Store, u: UserId, ch: ChannelId, now: int)
    requires Valid(s)
    ensures var r := Start(s, u, ch, now); r.Ok? ==> Valid(r.value.store)
  {
    var r := Start(s, u, ch, now);
    if r.Ok? {
      var s1 := ChargeHeistFee(s, u, PlanningFee, now);
      ChargeHeistFeeKeepsAgreement(s, u, PlanningFee, now);
      OpenKeepsHeistsValid(s.heists, Heist(ch, u, [u], Recruiting, now, None));
      assert r.value.store == s1.(heists := s.heists + [Heist(ch, u, [u], Recruiting, now, None)]);
    }
  }

  /** Opening a well-formed heist in a channel with none recruiting keeps the heists valid. */
  lemma OpenKeepsHeistsValid(hs: seq<Heist>, h: Heist)
    requires HeistsValid(hs) && WellFormedHeist(h)
    requires RecruitingHeist(hs, h.channelId).None?
    ensures HeistsValid(hs + [h])
  {
    var hs' := hs + [h];
    assert forall k :: 0 <= k < |hs| ==> hs'[k] == hs[k];
    assert forall k :: 0 <= k < |hs| ==> !IsRecruitingIn(hs[k], h.channelId);
  }

  // ---------------------------------------------------------------------
  // join

  /**
   * Rejects a channel without a recruiting heist, then a missing account,
   * a participant already in, and a full crew. A frozen account may join.
   * Otherwise charges the equipment fee and appends the user.
   */
  function Join(s: Store, u: UserId, ch: ChannelId, now: int): (r: Result<Step<seq<UserId>>>)
    ensures RecruitingHeist(s.heists, ch).None? ==> r == Err(NoHeist)
    ensures RecruitingHeist(s.heists, ch).Some? && u !in s.accounts ==> r == Err(NoAccount)
    ensures RecruitingHeist(s.heists, ch).Some? && u in s.accounts ==>
      var h := s.heists[RecruitingHeist(s.heists, ch).value];
      && (r == Err(AlreadyJoined) <==> u in h.participants)
      && (r == Err(HeistFull) <==> u !in h.participants && |h.participants| >= MaxCrew)
      && (r.Ok? <==> u !in h.participants && |h.participants| < MaxCrew)
      && (r.Ok? ==>
           && r.value.reply == h.participants + [u]
           && r.value.store == ChargeHeistFee(s, u, EquipmentFee, now).(heists :=
                s.heists[RecruitingHeist(s.heists, ch).value := h.(participants := h.participants + [u])]))
  {
    match RecruitingHeist(s.heists, ch)
    case None => Err(NoHeist)
    case Some(i) =>
      if u !in s.accounts then Err(NoAccount)
      else
        var h := s.heists[i];
        if u in h.participants then Err(AlreadyJoined)
        else if |h.participants| >= MaxCrew then Err(HeistFull)
        else
          var ps := h.participants + [u];
          var s1 := ChargeHeistFee(s, u, EquipmentFee, now);
          Ok(Step(s1.(heists := s.heists[i := h.(participants := ps)]), ps))
  }

  lemma JoinKeepsValid(s: Store, u: UserId, ch: ChannelId, now: int)
    requires Valid(s)
    ensures var r := Join(s, u, ch, now); r.Ok? ==> Valid(r.value.store)
  {
    var r := Join(s, u, ch, now);
    if r.Ok? {
      var s1 := ChargeHeistFee(s, u, EquipmentFee, now);
      ChargeHeistFeeKeepsAgreement(s, u, EquipmentFee, now);
      var i := RecruitingHeist(s.heists, ch).value;
      var h := s.heists[i];
      RecruitKeepsHeistsValid(s.heists, i, u);
      assert r.value.store == s1.(heists := s.heists[i := h.(participants := h.participants + [u])]);
    }
  }

  /** Adding a new participant to a heist with room keeps the heists valid. */
  lemma RecruitKeepsHeistsValid(hs: seq<Heist>, i: nat, u: UserId)
    requires HeistsValid(hs) && i < |hs|
    requires u !in hs[i].participants && |hs[i].participants| < MaxCrew
    ensures HeistsValid(hs[i := hs[i].(participants := hs[i].participants + [u])])
  {
    var h := hs[i];
    var ps := h.participants + [u];
    assert WellFormedHeist(h);
    assert forall k :: 0 <= k < |h.participants| ==> ps[k] == h.participants[k];
    assert NoDuplicates(ps);
  }


  // ---------------------------------------------------------------------
  // execute

  /** `min(0.30 + 0.10 * n, 0.80)`: the odds grow with the crew, capped at 0.80. */
  function SuccessChance(n: nat): (p: real)
    ensures p <= 0.8 && p >= 0.3
    ensures n >= 5 <==> p == 0.8
  {
    if 0.3 + 0.1 * n as real < 0.8 then 0.3 + 0.1 * n as real else 0.8
  }

  /** A bigger crew never has worse odds. */
  lemma SuccessChanceMonotone(m: nat, n: nat)
    requires m <= n
    ensures SuccessChance(m) <= SuccessChance(n)
    ensures m < n <= 5 ==> SuccessChance(m) < SuccessChance(n)
  {
  }

  /** Credits `share` to `v` if it has an account, logging a deposit. */
  function PayOne(s: Store, v: UserId, share: Mills, now: int): (s': Store)
    ensures s'.accounts.Keys == s.accounts.Keys
    ensures forall w :: w in s.accounts && w != v ==> s'.accounts[w] == s.accounts[w]
    ensures s'.loans == s.loans && s'.jobs == s.jobs && s'.holdings == s.holdings
    ensures s'.policies == s.policies && s'.heists == s.heists
    ensures v in s.accounts && WholeCents(s.accounts[v].balance) && WholeCents(share) ==>
      s'.accounts[v].balance == s.accounts[v].balance + share
    ensures LedgerAgrees(s) ==> LedgerAgrees(s')
  {
    if v in s.accounts then
      var nb := RoundCents(s.accounts[v].balance + share);
      WholeCentsArith(s.accounts[v].balance, share);
      PayOneKeepsAgreement(s, v, nb, share, now);
      Post(s, v, nb, [Transaction(v, Deposit, share, nb, now)])
    else s
  }

  lemma PayOneKeepsAgreement(s: Store, v: UserId, nb: Mills, share: Mills, now: int)
    requires v in s.accounts
    ensures LedgerAgrees(s) ==> LedgerAgrees(Post(s, v, nb, [Transaction(v, Deposit, share, nb, now)]))
  {
    if LedgerAgrees(s) {
      PostKeepsAgreement(s, v, nb, [Transaction(v, Deposit, share, nb, now)]);
    }
  }

  /** Every listed participant that has an account is credited `share` and logs a deposit. */
  function PayEach(s: Store, ps: seq<UserId>, share: Mills, now: int): (s': Store)
    ensures s'.accounts.Keys == s.accounts.Keys
    ensures forall v :: v in s.accounts && v !in ps ==> s'.accounts[v] == s.accounts[v]
    ensures s'.loans == s.loans && s'.jobs == s.jobs && s'.holdings == s.holdings
    ensures s'.policies == s.policies && s'.heists == s.heists
    decreases |ps|
  {
    if |ps| == 0 then s
    else PayEach(PayOne(s, ps[0], share, now), ps[1..], share, now)
  }

  lemma {:induction false} PayEachKeepsAgreement(s: Store, ps: seq<UserId>, share: Mills, now: int)
    requires LedgerAgrees(s)
    ensures LedgerAgrees(PayEach(s, ps, share, now))
    decreases |ps|
  {
    if |ps| > 0 {
      PayEachKeepsAgreement(PayOne(s, ps[0], share, now), ps[1..], share, now);
    }
  }

  /** In a crew without repeats, each member with a whole-cent balance gains exactly the share. */
  lemma {:induction false} PayEachCredits(s: Store, ps: seq<UserId>, share: Mills, now: int, v: UserId)
    requires NoDuplicates(ps) && v in ps && v in s.accounts
    requires WholeCents(s.accounts[v].balance) && WholeCents(share)
    ensures PayEach(s, ps, share, now).accounts[v].balance == s.accounts[v].balance + share
    decreases |ps|
  {
    var s1 := PayOne(s, ps[0], share, now);
    NoDuplicatesTail(ps);
    if ps[0] != v {
      assert v in ps[1..] by {
        var k :| 0 <= k < |ps| && ps[k] == v;
        assert ps[1..][k - 1] == v;
      }
      PayEachCredits(s1, ps[1..], share, now, v);
    }
  }

  datatype FineEntry = FineEntry(userId: UserId, fine: Mills)

  datatype FineRun = FineRun(store: Store, fines: seq<FineEntry>)

  /** A failure fine: a uniform whole-cent draw in [0.05, 0.30]. */
  function FailureFine(r: Unit): (f: Mills)
    ensures WholeCents(f) && 50 <= f <= 300
  {
    DrawCents(r, 5, 25)
  }

  /** Fines `v`, who must have an account, logging the fine. */
  function FineOne(s: Store, v: UserId, fine: Mills, now: int): (s': Store)
    requires v in s.accounts
    ensures s'.accounts.Keys == s.accounts.Keys
    ensures forall w :: w in s.accounts && w != v ==> s'.accounts[w] == s.accounts[w]
    ensures s'.loans == s.loans && s'.jobs == s.jobs && s'.holdings == s.holdings
    ensures s'.policies == s.policies && s'.heists == s.heists
    ensures WholeCents(s.accounts[v].balance) && WholeCents(fine) ==> s'.accounts[v].balance == s.accounts[v].balance - fine
    ensures LedgerAgrees(s) ==> LedgerAgrees(s')
  {
    var nb := RoundCents(s.accounts[v].balance - fine);
    WholeCentsArith(s.accounts[v].balance, fine);
    FineOneKeepsAgreement(s, v, nb, fine, now);
    Post(s, v, nb, [Transaction(v, Fee, -fine, nb, now)])
  }

  lemma FineOneKeepsAgreement(s: Store, v: UserId, nb: Mills, fine: Mills, now: int)
    requires v in s.accounts
    ensures LedgerAgrees(s) ==> LedgerAgrees(Post(s, v, nb, [Transaction(v, Fee, -fine, nb, now)]))
  {
    if LedgerAgrees(s) {
      PostKeepsAgreement(s, v, nb, [Transaction(v, Fee, -fine, nb, now)]);
    }
  }

  /**
   * Every listed participant that has an account is fined; the draws are
   * consumed in order, one per fined participant, starting at `k`.
   */
  function FineEach(s: Store, ps: seq<UserId>, draws: nat -> Unit, k: nat, now: int): (r: FineRun)
    ensures r.store.accounts.Keys == s.accounts.Keys
    ensures forall v :: v in s.accounts && v !in ps ==> r.store.accounts[v] == s.accounts[v]
    ensures r.store.loans == s.loans && r.store.jobs == s.jobs && r.store.holdings == s.holdings
    ensures r.store.policies == s.policies && r.store.heists == s.heists
    ensures |r.fines| <= |ps|
    ensures forall f :: f in r.fines ==> f.userId in ps && f.userId in s.accounts && 50 <= f.fine <= 300
    decreases |ps|
  {
    if |ps| == 0 then FineRun(s, [])
    else
      var v := ps[0];
      if v in s.accounts then
        var fine := FailureFine(draws(k));
        var rest := FineEach(FineOne(s, v, fine, now), ps[1..], draws, k + 1, now);
        FineRun(rest.store, [FineEntry(v, fine)] + rest.fines)
      else
        FineEach(s, ps[1..], draws, k, now)
  }

  lemma {:induction false} FineEachKeepsAgreement(s: Store, ps: seq<UserId>, draws: nat -> Unit, k: nat, now: int)
    requires LedgerAgrees(s)
    ensures LedgerAgrees(FineEach(s, ps, draws, k, now).store)
    decreases |ps|
  {
    if |ps| > 0 {
      var v := ps[0];
      if v in s.accounts {
        FineEachKeepsAgreement(FineOne(s, v, FailureFine(draws(k)), now), ps[1..], draws, k + 1, now);
      } else {
        FineEachKeepsAgreement(s, ps[1..], draws, k, now);
      }
    }
  }

  /** The participants that hold an account, in order. */
  function Members(s: Store, ps: seq<UserId>): (r: seq<UserId>)
    ensures |r| <= |ps|
    ensures forall v :: v in r <==> v in ps && v in s.accounts
  {
    if |ps| == 0 then []
    else if ps[0] in s.accounts then [ps[0]] + Members(s, ps[1..])
    else Members(s, ps[1..])
  }

  /** Who a list of fines names, in order. */
  function Fined(fines: seq<FineEntry>): (r: seq<UserId>)
    ensures |r| == |fines|
    ensures forall i :: 0 <= i < |fines| ==> r[i] == fines[i].userId
  {
    if |fines| == 0 then [] else [fines[0].userId] + Fined(fines[1..])
  }

  lemma {:induction false} MembersSameKeys(s: Store, t: Store, ps: seq<UserId>)
    requires s.accounts.Keys == t.accounts.Keys
    ensures Members(s, ps) == Members(t, ps)
    decreases |ps|
  {
    if |ps| > 0 {
      MembersSameKeys(s, t, ps[1..]);
    }
  }

  /** Exactly the participants that have an account are fined, once each, in crew order. */
  lemma {:induction false} FineEachFinesMembers(s: Store, ps: seq<UserId>, draws: nat -> Unit, k: nat, now: int)
    ensures Fined(FineEach(s, ps, draws, k, now).fines) == Members(s, ps)
    decreases |ps|
  {
    if |ps| > 0 {
      var v := ps[0];
      if v in s.accounts {
        var s1 := FineOne(s, v, FailureFine(draws(k)), now);
        var rest := FineEach(s1, ps[1..], draws, k + 1, now);
        FineEachFinesMembers(s1, ps[1..], draws, k + 1, now);
        MembersSameKeys(s, s1, ps[1..]);
        assert Fined([FineEntry(v, FailureFine(draws(k)))] + rest.fines) == [v] + Fined(rest.fines);
      } else {
        FineEachFinesMembers(s, ps[1..], draws, k, now);
      }
    }
  }

  datatype ExecuteReply =
    | Success(vaultPayout: Mills, insuranceDeductible: Mills, netPayout: Mills, individualShare: Mills, participants: seq<UserId>)
    | Failure(participants: seq<UserId>, fines: seq<FineEntry>)

  /** The vault's take, after insurance keeps a quarter, split evenly and rounded to the cent. */
  function Share(vault: Mills, crew: nat): (share: Mills)
    requires crew > 0
    ensures WholeCents(share)
    ensures 2 * share * crew - 10 * crew <= 2 * RoundScaled(vault, 75, 100) < 2 * share * crew + 10 * crew
  {
    RoundCentsOf(RoundScaled(vault, 75, 100), crew)
  }

  /** Closes the heist at index `i` with the given status. */
  function Close(hs: seq<Heist>, i: nat, status: HeistStatus, now: int): (hs': seq<Heist>)
    requires i < |hs|
    ensures |hs'| == |hs| && hs'[i].status == status && hs'[i].completedAt == Some(now)
    ensures hs'[i].participants == hs[i].participants && hs'[i].channelId == hs[i].channelId
    ensures forall k :: 0 <= k < |hs| && k != i ==> hs'[k] == hs[k]
  {
    hs[i := hs[i].(status := status, completedAt := Some(now))]
  }

  /**
   * Rejects a channel without a recruiting heist, a caller other than the
   * organizer, and a crew of fewer than two. The heist then succeeds with
   * `SuccessChance` of the crew size: on success every crew member with an
   * account is paid the share of a vault drawn in [0.50, 5.00] less 25%
   * insurance; on failure each is fined between 0.05 and 0.30. Either way
   * the heist is closed.
   */
  function Execute(s: Store, u: UserId, ch: ChannelId, now: int, successDraw: Unit, vaultDraw: Unit, fineDraws: nat -> Unit)
    : (r: Result<Step<ExecuteReply>>)
    ensures RecruitingHeist(s.heists, ch).None? ==> r == Err(NoHeist)
    ensures RecruitingHeist(s.heists, ch).Some? ==>
      var i := RecruitingHeist(s.heists, ch).value;
      var h := s.heists[i];
      && (h.startedBy != u ==> r == Err(NotStarter))
      && (h.startedBy == u && |h.participants| < 2 ==> r == Err(NeedMoreParticipants))
      && (r.Ok? <==> h.startedBy == u && |h.participants| >= 2)
      && (r.Ok? ==> (r.value.reply.Success? <==> successDraw < SuccessChance(|h.participants|)))
      && (r.Ok? && r.value.reply.Success? ==>
            var vault := DrawCents(vaultDraw, 50, 450);
            && r.value.reply == Success(vault, RoundScaled(vault, 25, 100), RoundScaled(vault, 75, 100),
                                        Share(vault, |h.participants|), h.participants)
            && r.value.store == PayEach(s, h.participants, Share(vault, |h.participants|), now).(heists := Close(s.heists, i, Completed, now)))
      && (r.Ok? && r.value.reply.Failure? ==>
            var run := FineEach(s, h.participants, fineDraws, 0, now);
            && r.value.reply == Failure(h.participants, run.fines)
            && r.value.store == run.store.(heists := Close(s.heists, i, Failed, now)))
  {
    match RecruitingHeist(s.heists, ch)
    case None => Err(NoHeist)
    case Some(i) =>
      var h := s.heists[i];
      if h.startedBy != u then Err(NotStarter)
      else if |h.participants| < 2 then Err(NeedMoreParticipants)
      else if successDraw < SuccessChance(|h.participants|) then
        var vault := DrawCents(vaultDraw, 50, 450);
        var share := Share(vault, |h.participants|);
        var s1 := PayEach(s, h.participants, share, now);
        Ok(Step(s1.(heists := Close(s.heists, i, Completed, now)),
                Success(vault, RoundScaled(vault, 25, 100), RoundScaled(vault, 75, 100), share, h.participants)))
      else
        var run := FineEach(s, h.participants, fineDraws, 0, now);
        Ok(Step(run.store.(heists := Close(s.heists, i, Failed, now)), Failure(h.participants, run.fines)))
  }

  /**
   * The insurance keeps a quarter of the vault, to the cent; the crew's
   * take plus the deductible is the vault within a cent.
   */
  lemma VaultSplit(vault: Mills)
    requires WholeCents(vault) && 500 <= vault <= 5000
    ensures -10 <= RoundScaled(vault, 75, 100) + RoundScaled(vault, 25, 100) - vault <= 10
  {
  }

  /** On success every crew member with a whole-cent balance gains exactly the share. */
  lemma ExecuteCreditsCrew(s: Store, u: UserId, ch: ChannelId, now: int, successDraw: Unit, vaultDraw: Unit, fineDraws: nat -> Unit, v: UserId)
    requires Valid(s)
    requires var r := Execute(s, u, ch, now, successDraw, vaultDraw, fineDraws); r.Ok? && r.value.reply.Success?
    requires v in Execute(s, u, ch, now, successDraw, vaultDraw, fineDraws).value.reply.participants
    requires v in s.accounts && WholeCents(s.accounts[v].balance)
    ensures var rep := Execute(s, u, ch, now, successDraw, vaultDraw, fineDraws).value;
            rep.store.accounts[v].balance == s.accounts[v].balance + rep.reply.individualShare
  {
    var i := RecruitingHeist(s.heists, ch).value;
    var h := s.heists[i];
    assert WellFormedHeist(h);
    var vault := DrawCents(vaultDraw, 50, 450);
    PayEachCredits(s, h.participants, Share(vault, |h.participants|), now, v);
  }

  lemma ExecuteKeepsValid(s: Store, u: UserId, ch: ChannelId, now: int, successDraw: Unit, vaultDraw: Unit, fineDraws: nat -> Unit)
    requires Valid(s)
    ensures var r := Execute(s, u, ch, now, successDraw, vaultDraw, fineDraws); r.Ok? ==> Valid(r.value.store)
  {
    var r := Execute(s, u, ch, now, successDraw, vaultDraw, fineDraws);
    if r.Ok? {
      var i := RecruitingHeist(s.heists, ch).value;
      var h := s.heists[i];
      if r.value.reply.Success? {
        var vault := DrawCents(vaultDraw, 50, 450);
        PayEachKeepsAgreement(s, h.participants, Share(vault, |h.participants|), now);
        CloseKeepsHeistsValid(s.heists, i, Completed, now);
      } else {
        FineEachKeepsAgreement(s, h.participants, fineDraws, 0, now);
        CloseKeepsHeistsValid(s.heists, i, Failed, now);
      }
    }
  }

  /** Closing a heist keeps its crew and takes it out of recruiting. */
  lemma CloseKeepsHeistsValid(hs: seq<Heist>, i: nat, status: HeistStatus, now: int)
    requires HeistsValid(hs) && i < |hs| && status != Recruiting
    ensures HeistsValid(Close(hs, i, status, now))
  {
    var hs' := Close(hs, i, status, now);
    assert forall k :: 0 <= k < |hs| ==> WellFormedHeist(hs[k]);
    assert forall k :: 0 <= k < |hs'| ==> hs'[k].participants == hs[k].participants && hs'[k].startedBy == hs[k].startedBy;
  }
}
