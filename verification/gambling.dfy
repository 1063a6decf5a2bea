/**
 * The three games: a coin flip, a three-reel slot machine and a card draw.
 *
 * All three share their guards (an account, not frozen, a balance that
 * covers the bet) and their bookkeeping: a single entry logs the net
 * change with the new balance. Slots and the card draw also share their
 * settlement, in which a multiplier, given here in tenths, turns the bet
 * into a payout or a penalty; the coin flip nets its payout less the bet
 * without that settlement's test for a non-positive payout. A bet is never
 * checked for sign or size beyond the balance test.
 */
module Gambling {
  import opened Money
  import opened Ledger

  // ---------------------------------------------------------------------
  // shared settlement

  /** The shared rejections, or none when the bet may be played. */
  function WagerError(s: Store, u: UserId, bet: Mills): (e: Option<Error>)
    ensures e == Some(NoAccount) <==> u !in s.accounts
    ensures e == Some(AccountFrozen) <==> u in s.accounts && s.accounts[u].status == Frozen
    ensures u in s.accounts && s.accounts[u].status != Frozen ==>
      && (e.Some? <==> s.accounts[u].balance < bet)
      && (e.Some? ==> e.value == Insufficient(s.accounts[u].balance, bet))
  {
    if u !in s.accounts then Some(NoAccount)
    else if s.accounts[u].status == Frozen then Some(AccountFrozen)
    else if s.accounts[u].balance < bet then Some(Insufficient(s.accounts[u].balance, bet))
    else None
  }

  /** What a multiplier does to a bet: the payout, the penalty and the net change. */
  datatype Settlement = Settlement(payout: Mills, penalty: Mills, net: Mills)

  /**
   * Settles `bet` at a multiplier of `tenths / 10`, as slots and the card
   * draw do. A positive multiplier pays the rounded product and nets it
   * less the bet (a payout that is not positive, from a tiny or negative
   * bet, loses the bet); zero loses the bet; a negative multiplier loses
   * the bet and a penalty of that many bets on top.
   */
  function Settle(bet: Mills, tenths: int): (o: Settlement)
    ensures tenths > 0 ==> o.penalty == 0 && o.payout == RoundScaled(bet, tenths, 10)
    ensures tenths <= 0 ==> o.payout == 0
    ensures tenths < 0 ==> o.penalty == RoundScaled(bet, -tenths, 10) && o.net == -(bet + o.penalty)
    ensures tenths == 0 ==> o.penalty == 0 && o.net == -bet
    ensures tenths > 0 && o.payout > 0 ==> o.net == RoundCents(o.payout - bet)
    ensures tenths > 0 && o.payout <= 0 ==> o.net == -bet
  {
    var payout := if tenths > 0 then RoundScaled(bet, tenths, 10) else 0;
    var penalty := if tenths < 0 then RoundScaled(bet, -tenths, 10) else 0;
    var net := if tenths < 0 then -(bet + penalty)
               else if payout > 0 then RoundCents(payout - bet)
               else -bet;
    Settlement(payout, penalty, net)
  }

  /**
   * For a positive whole-cent bet and a whole multiplier the settlement is
   * exact: a win nets `k - 1` bets, and a loss of `k` costs `k + 1` bets.
   */
  lemma SettleWholeMultiplier(bet: Mills, k: int)
    requires WholeCents(bet) && bet > 0 && k != 0
    ensures Settle(bet, 10 * k).net == (k - 1) * bet
  {
    if k > 0 {
      RoundScaledWhole(bet, k);
      assert k * bet > 0;
      WholeCentsArith(k * bet, bet);
    } else {
      RoundScaledWhole(bet, -k);
      assert -(bet + (-k) * bet) == (k - 1) * bet;
    }
  }

  /**
   * The 0.9 "break even" band pays out, so it is logged as a win and a
   * deposit, yet on any whole-cent bet above 0.05 it loses money.
   */
  lemma BreakEvenLoses(bet: Mills)
    requires WholeCents(bet) && bet > 50
    ensures Settle(bet, 9).payout > 0 && Settle(bet, 9).net < 0
  {
    var o := Settle(bet, 9);
    WholeCentsArith(o.payout, bet);
  }

  /** The entry a game logs: a deposit exactly when the multiplier is positive. */
  function WagerEntry(u: UserId, won: bool, net: Mills, newBalance: Mills, now: int): (t: Transaction)
    ensures t.kind == (if won then Deposit else Withdrawal)
    ensures t.userId == u && t.amount == net && t.balanceAfter == newBalance && t.createdAt == now
  {
    Transaction(u, if won then Deposit else Withdrawal, net, newBalance, now)
  }

  /** The balance after a settlement: the net change, rounded to the cent. */
  function AfterWager(balance: Mills, net: Mills): (b: Mills)
    ensures WholeCents(balance) && WholeCents(net) ==> b == balance + net
  {
    WholeCentsArith(balance, net);
    RoundCents(balance + net)
  }

  /**
   * Applies a settlement to `u`: only that account's balance moves, by the
   * net rounded to the cent, and exactly one entry is appended, a deposit
   * when the game was won, carrying the net and the new balance; no other
   * account or table changes.
   */
  function SettleStore(s: Store, u: UserId, won: bool, net: Mills, now: int): (s': Store)
    requires u in s.accounts
    ensures s'.accounts.Keys == s.accounts.Keys && SameRecords(s, s')
    ensures forall v :: v in s.accounts && v != u ==> s'.accounts[v] == s.accounts[v]
    ensures s'.accounts[u] == s.accounts[u].(balance := s'.accounts[u].balance)
    ensures WholeCents(s'.accounts[u].balance)
    ensures WholeCents(s.accounts[u].balance) && WholeCents(net) ==> s'.accounts[u].balance == s.accounts[u].balance + net
    ensures |s'.transactions| == |s.transactions| + 1 && s'.transactions[..|s.transactions|] == s.transactions
    ensures var t := s'.transactions[|s.transactions|];
      && t.userId == u && t.amount == net && t.balanceAfter == s'.accounts[u].balance && t.createdAt == now
      && (t.kind == Deposit <==> won) && (t.kind == Withdrawal <==> !won)
  {
    var nb := AfterWager(s.accounts[u].balance, net);
    Post(s, u, nb, [WagerEntry(u, won, net, nb, now)])
  }

  /** A settled store keeps every invariant. */
  lemma SettleStoreKeepsValid(s: Store, u: UserId, won: bool, net: Mills, now: int)
    requires Valid(s) && u in s.accounts
    ensures Valid(SettleStore(s, u, won, net, now))
  {
    var nb := AfterWager(s.accounts[u].balance, net);
    PostKeepsAgreement(s, u, nb, [WagerEntry(u, won, net, nb, now)]);
  }

  // ---------------------------------------------------------------------
  // coinflip

  datatype Side = Heads | Tails

  /** A fair coin: heads below one half. */
  function Flip(r: Unit): (side: Side)
    ensures side == Heads <==> r < 0.5
  {
    if r < 0.5 then Heads else Tails
  }

  /** The call as the player typed it: a call other than exactly "heads" or "tails" never wins. */
  function SideName(side: Side): string {
    match side
    case Heads => "heads"
    case Tails => "tails"
  }

  datatype CoinflipReply = CoinflipReply(won: bool, result: Side, call: string, bet: Mills, payout: Mills, net: Mills, newBalance: Mills)

  /**
   * A win pays 1.8 times the bet, rounded, and nets that payout less the
   * bet, rounded again, whatever the sign of the payout; a loss forfeits
   * the bet. The player wins exactly when the call spells the side that
   * came up.
   */
  function Coinflip(s: Store, u: UserId, bet: Mills, call: string, now: int, r: Unit): (res: Result<Step<CoinflipReply>>)
    ensures WagerError(s, u, bet).Some? <==> res.Err?
    ensures res.Err? ==> res.error == WagerError(s, u, bet).value
    ensures res.Ok? ==>
      var rep := res.value.reply;
      && rep.result == Flip(r)
      && (rep.won <==> call == SideName(Flip(r)))
      && rep.payout == (if rep.won then RoundScaled(bet, 18, 10) else 0)
      && rep.net == (if rep.won then RoundCents(rep.payout - bet) else -bet)
      && rep.newBalance == AfterWager(s.accounts[u].balance, rep.net)
      && res.value.store == SettleStore(s, u, rep.won, rep.net, now)
  {
    match WagerError(s, u, bet)
    case Some(e) => Err(e)
    case None =>
      var side := Flip(r);
      var won := call == SideName(side);
      var payout := if won then RoundScaled(bet, 18, 10) else 0;
      var net := if won then RoundCents(payout - bet) else -bet;
      var nb := AfterWager(s.accounts[u].balance, net);
      Ok(Step(SettleStore(s, u, won, net, now), CoinflipReply(won, side, call, bet, payout, net, nb)))
  }

  /**
   * On a whole-cent bet of either sign a winning flip nets 0.8 of the bet,
   * rounded: the house keeps a fifth of the even-money payout.
   */
  lemma CoinflipWinNets(bet: Mills)
    requires WholeCents(bet)
    ensures RoundCents(RoundScaled(bet, 18, 10) - bet) == RoundScaled(bet, 8, 10)
  {
    var j := bet / 10;
    assert bet == 10 * j;
    var win := RoundScaled(bet, 18, 10);
    var profit := RoundScaled(bet, 8, 10);
    assert win == (360 * j + 100) / 200 * 10;
    assert profit == (160 * j + 100) / 200 * 10;
    assert (360 * j + 100) / 200 == (160 * j + 100) / 200 + j;
    assert win == profit + bet;
    WholeCentsArith(win, bet);
  }

  lemma CoinflipKeepsValid(s: Store, u: UserId, bet: Mills, call: string, now: int, r: Unit)
    requires Valid(s)
    ensures var res := Coinflip(s, u, bet, call, now, r); res.Ok? ==> Valid(res.value.store)
  {
    var res := Coinflip(s, u, bet, call, now, r);
    if res.Ok? {
      SettleStoreKeepsValid(s, u, res.value.reply.won, res.value.reply.net, now);
    }
  }

  // ---------------------------------------------------------------------
  // slots

  datatype Symbol = Lemon | Cherry | MoneyBag | Gem | Skull | Bank | Crash

  /** The reel strip, in order; a reel shows `Reel[floor(r * 7)]`. */
  const Reel: seq<Symbol> := [Lemon, Cherry, MoneyBag, Gem, Skull, Bank, Crash]

  /** One spun reel. */
  function Spin(r: Unit): (sym: Symbol)
    ensures sym in Reel
  {
    Reel[PickIndex(r, |Reel|)]
  }

  /**
   * The slot multiplier in tenths: three gems (the diamond) 10, three money bags 7,
   * three skulls -3, any other triple 5, any pair 1.5, otherwise 0.
   */
  function SlotTenths(a: Symbol, b: Symbol, c: Symbol): (t: int)
    ensures t > 0 <==> (a == b || b == c || a == c) && !(a == b == c == Skull)
    ensures t < 0 <==> a == b == c == Skull
    ensures t == 100 <==> a == b == c == Gem
    ensures t == 15 <==> (a == b || b == c || a == c) && !(a == b == c)
    ensures a == b == c == MoneyBag ==> t == 70
    ensures a == b == c == Skull ==> t == -30
    ensures a == b == c && a != Gem && a != MoneyBag && a != Skull ==> t == 50
    ensures !(a == b || b == c || a == c) ==> t == 0
  {
    if a == b && b == c then
      if a == Gem then 100
      else if a == MoneyBag then 70
      else if a == Skull then -30
      else 50
    else if a == b || b == c || a == c then 15
    else 0
  }

  /** The multiplier depends only on which symbols show, not on their order. */
  lemma SlotTenthsSymmetric(a: Symbol, b: Symbol, c: Symbol)
    ensures SlotTenths(a, b, c) == SlotTenths(b, a, c) == SlotTenths(a, c, b)
  {
  }

  datatype SlotsReply = SlotsReply(reels: seq<Symbol>, won: bool, tenths: int, bet: Mills, payout: Mills, net: Mills, newBalance: Mills)

  function Slots(s: Store, u: UserId, bet: Mills, now: int, r1: Unit, r2: Unit, r3: Unit): (res: Result<Step<SlotsReply>>)
    ensures WagerError(s, u, bet).Some? <==> res.Err?
    ensures res.Err? ==> res.error == WagerError(s, u, bet).value
    ensures res.Ok? ==>
      var rep := res.value.reply;
      && rep.reels == [Spin(r1), Spin(r2), Spin(r3)]
      && rep.tenths == SlotTenths(Spin(r1), Spin(r2), Spin(r3))
      && (rep.won <==> rep.tenths > 0)
      && rep.payout == Settle(bet, rep.tenths).payout
      && rep.net == Settle(bet, rep.tenths).net
      && rep.newBalance == AfterWager(s.accounts[u].balance, rep.net)
      && res.value.store == SettleStore(s, u, rep.won, rep.net, now)
  {
    match WagerError(s, u, bet)
    case Some(e) => Err(e)
    case None =>
      var a, b, c := Spin(r1), Spin(r2), Spin(r3);
      var t := SlotTenths(a, b, c);
      var o := Settle(bet, t);
      var nb := AfterWager(s.accounts[u].balance, o.net);
      Ok(Step(SettleStore(s, u, t > 0, o.net, now), SlotsReply([a, b, c], t > 0, t, bet, o.payout, o.net, nb)))
  }

  /** Three skulls on a whole-cent bet cost four bets: the bet and a threefold penalty. */
  lemma ThreeSkullsCostFourBets(bet: Mills)
    requires WholeCents(bet) && bet > 0
    ensures Settle(bet, SlotTenths(Skull, Skull, Skull)).net == -4 * bet
  {
    SettleWholeMultiplier(bet, -3);
  }

  lemma SlotsKeepsValid(s: Store, u: UserId, bet: Mills, now: int, r1: Unit, r2: Unit, r3: Unit)
    requires Valid(s)
    ensures var res := Slots(s, u, bet, now, r1, r2, r3); res.Ok? ==> Valid(res.value.store)
  {
    var res := Slots(s, u, bet, now, r1, r2, r3);
    if res.Ok? {
      SettleStoreKeepsValid(s, u, res.value.reply.won, res.value.reply.net, now);
    }
  }

  // ---------------------------------------------------------------------
  // gamble (the card game)

  /** Upper edges of the eight outcome bands on a roll in [0, 100). */
  const BandEdges: seq<real> := [1.0, 5.0, 15.0, 35.0, 50.0, 85.0, 95.0, 100.0]

  /** Multipliers of the bands, in tenths: 15, 5, 3, 1.5, 0.9, 0, -1, -2. */
  const BandTenths: seq<int> := [150, 50, 30, 15, 9, 0, -10, -20]

  /** The band a roll in [0, 100) falls into: the first whose upper edge exceeds it. */
  function Band(roll: real): (i: nat)
    requires 0.0 <= roll < 100.0
    ensures i < |BandEdges| && roll < BandEdges[i]
    ensures forall k :: 0 <= k < i ==> BandEdges[k] <= roll
  {
    if roll < 1.0 then 0
    else if roll < 5.0 then 1
    else if roll < 15.0 then 2
    else if roll < 35.0 then 3
    else if roll < 50.0 then 4
    else if roll < 85.0 then 5
    else if roll < 95.0 then 6
    else 7
  }

  /** The band edges increase, so a roll lies in exactly one band. */
  lemma BandsPartition(roll: real, i: nat)
    requires 0.0 <= roll < 100.0 && i < |BandEdges|
    requires (i == 0 || BandEdges[i - 1] <= roll) && roll < BandEdges[i]
    ensures Band(roll) == i
  {
  }

  datatype GambleReply = GambleReply(won: bool, band: nat, tenths: int, bet: Mills, payout: Mills, net: Mills, newBalance: Mills)

  function Gamble(s: Store, u: UserId, bet: Mills, now: int, r: Unit): (res: Result<Step<GambleReply>>)
    ensures WagerError(s, u, bet).Some? <==> res.Err?
    ensures res.Err? ==> res.error == WagerError(s, u, bet).value
    ensures res.Ok? ==>
      var rep := res.value.reply;
      && rep.band == Band(Scale(r, 100))
      && rep.tenths == BandTenths[rep.band]
      && (rep.won <==> rep.band <= 4)
      && rep.net == Settle(bet, rep.tenths).net
      && rep.newBalance == AfterWager(s.accounts[u].balance, rep.net)
      && res.value.store == SettleStore(s, u, rep.won, rep.net, now)
  {
    match WagerError(s, u, bet)
    case Some(e) => Err(e)
    case None =>
      var band := Band(Scale(r, 100));
      var t := BandTenths[band];
      var o := Settle(bet, t);
      var nb := AfterWager(s.accounts[u].balance, o.net);
      Ok(Step(SettleStore(s, u, t > 0, o.net, now), GambleReply(t > 0, band, t, bet, o.payout, o.net, nb)))
  }

  /**
   * The worst card costs three bets, so a player who bets the whole
   * (positive, whole-cent) balance ends at minus twice the bet.
   */
  lemma CatastropheOverdraws(s: Store, u: UserId, now: int, r: Unit)
    requires u in s.accounts && s.accounts[u].status != Frozen
    requires WholeCents(s.accounts[u].balance) && s.accounts[u].balance > 0
    requires Scale(r, 100) >= 95.0
    ensures var res := Gamble(s, u, s.accounts[u].balance, now, r);
            res.Ok? && res.value.reply.newBalance == -2 * s.accounts[u].balance
  {
    var bet := s.accounts[u].balance;
    SettleWholeMultiplier(bet, -2);
    WholeCentsArith(-3 * bet, 0) by { assert -3 * bet == 10 * (-3 * (bet / 10)); }
  }

  lemma GambleKeepsValid(s: Store, u: UserId, bet: Mills, now: int, r: Unit)
    requires Valid(s)
    ensures var res := Gamble(s, u, bet, now, r); res.Ok? ==> Valid(res.value.store)
  {
    var res := Gamble(s, u, bet, now, r);
    if res.Ok? {
      SettleStoreKeepsValid(s, u, res.value.reply.won, res.value.reply.net, now);
    }
  }
}
