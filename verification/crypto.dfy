/**
 * Crypto trading: five coins, bought for a 5% convenience fee and sold
 * whole-position for a 10% tax. Quantities are held in units of 1e-5 of a
 * coin and prices in mills. The raw price formula (a sine of the clock plus
 * noise) is floating point and is taken as an input; only its clamp and
 * rounding step is modelled.
 */
module Crypto {
  import opened Money
  import opened Ledger

  datatype Coin = Coin(name: string, basePrice: Mills, volatility: real)

  /** The listed symbols, upper-case. */
  const Symbols: seq<string> := ["SBAG", "FEES", "SCAM", "HODL", "RUG"]

  /** The coin a symbol names, looked up exactly. */
  function CoinOf(sym: string): (c: Option<Coin>)
    ensures c.Some? <==> sym in Symbols
  {
    if sym == "SBAG" then Some(Coin("SouthCoin", 1000, 0.8))
    else if sym == "FEES" then Some(Coin("FeeCoin", 500, 0.6))
    else if sym == "SCAM" then Some(Coin("ScamToken", 100, 0.95))
    else if sym == "HODL" then Some(Coin("HODLcoin", 2000, 0.4))
    else if sym == "RUG" then Some(Coin("RugPull", 5000, 0.99))
    else None
  }

  /**
   * `toUpperCase` on one character, as far as it can matter for a lookup:
   * ASCII letters, and the two non-ASCII letters whose capital is an ASCII
   * letter (dotless i and long s). Every other character is kept.
   */
  function UpperChar(c: char): (u: char)
    ensures !('a' <= u <= 'z') && u != '\U{0131}' && u != '\U{017F}'
    ensures 'a' <= c <= 'z' ==> u as int == c as int - 32
    ensures !('a' <= c <= 'z') && c != '\U{0131}' && c != '\U{017F}' ==> u == c
  {
    if 'a' <= c <= 'z' then (c as int - 32) as char
    else if c == '\U{0131}' then 'I'
    else if c == '\U{017F}' then 'S'
    else c
  }

  function Upper(s: string): (t: string)
    ensures |t| == |s|
    ensures forall i :: 0 <= i < |s| ==> t[i] == UpperChar(s[i])
  {
    seq(|s|, i requires 0 <= i < |s| => UpperChar(s[i]))
  }

  /** Upper-casing twice is upper-casing once. */
  lemma UpperIdempotent(s: string)
    ensures Upper(Upper(s)) == Upper(s)
  {
    assert forall i :: 0 <= i < |s| ==> UpperChar(UpperChar(s[i])) == UpperChar(s[i]);
  }

  /** Any casing of a symbol finds the coin, and so does a long s standing for an S. */
  lemma SpellingsFindCoins()
    ensures CoinOf(Upper("sbag")) == CoinOf("SBAG") && CoinOf(Upper("Rug")) == CoinOf("RUG")
    ensures CoinOf(Upper("\U{017F}bag")) == CoinOf("SBAG")
    ensures CoinOf(Upper("dogecoin")).None?
  {
    assert Upper("sbag") == "SBAG";
    assert Upper("Rug") == "RUG";
    assert Upper("\U{017F}bag") == "SBAG";
    assert Upper("dogecoin") == "DOGECOIN";
  }

  /**
   * The clamp and rounding of a raw price: at least 0.001, to the nearest
   * mill (halves up).
   */
  function ClampPrice(raw: real): (p: Mills)
    ensures p >= 1
    ensures raw <= 0.001 ==> p == 1
    ensures raw > 0.001 ==> raw * 1000.0 - 0.5 < p as real <= raw * 1000.0 + 0.5
  {
    var x := if raw < 0.001 then 0.001 else raw;
    (x * 1000.0 + 0.5).Floor
  }

  // ---------------------------------------------------------------------
  // Buy

  /** The 5% convenience fee on a purchase of `amount`, to the cent. */
  function BuyFee(amount: Mills): (fee: Mills)
    ensures WholeCents(fee)
    ensures 200 * fee - 1000 <= 10 * amount < 200 * fee + 1000
  {
    RoundScaled(amount, 5, 100)
  }

  /** `amount / price` coins, to the nearest 1e-5 coin. */
  function UnitsFor(amount: Mills, price: Mills): (units: int)
    requires price >= 1
    ensures 2 * units * price - price <= 200000 * amount < 2 * units * price + price
  {
    RoundDiv(amount * 100000, price)
  }

  datatype BuyReply = BuyReply(coin: string, units: int, price: Mills, spent: Mills, fee: Mills, newBalance: Mills)

  /** A purchase's two entries: the amount, then the fee, each with the balance it leaves. */
  function BuyLog(u: UserId, amount: Mills, after: Mills, fee: Mills, nb: Mills, now: int): (log: seq<Transaction>)
    ensures |log| == 2 && log[1].balanceAfter == nb
    ensures forall t :: t in log ==> t.userId == u
  {
    [Transaction(u, Withdrawal, -amount, after, now), Transaction(u, Fee, -fee, nb, now + 1)]
  }

  /**
   * A purchase that passed the guards: debits the amount and then the fee,
   * inserts one new holding at the clamped price, and logs both debits;
   * no other account, and no loan, job, policy or heist, changes.
   */
  function BuyFilled(s: Store, u: UserId, sym: string, amount: Mills, raw: real, now: int): (st: Step<BuyReply>)
    requires u in s.accounts
    ensures st.reply.coin == sym && st.reply.spent == amount && st.reply.fee == BuyFee(amount)
    ensures st.reply.price == ClampPrice(raw) && st.reply.units == UnitsFor(amount, st.reply.price)
    ensures WholeCents(st.reply.newBalance)
    ensures WholeCents(s.accounts[u].balance) && WholeCents(amount) ==>
      st.reply.newBalance == s.accounts[u].balance - amount - st.reply.fee
    ensures st.store.accounts.Keys == s.accounts.Keys
    ensures forall v :: v in s.accounts && v != u ==> st.store.accounts[v] == s.accounts[v]
    ensures st.store.accounts[u] == s.accounts[u].(balance := st.reply.newBalance)
    ensures st.store.holdings == s.holdings + [Holding(u, sym, st.reply.units, st.reply.price, now)]
    ensures st.store.loans == s.loans && st.store.jobs == s.jobs
    ensures st.store.policies == s.policies && st.store.heists == s.heists
    ensures |st.store.transactions| == |s.transactions| + 2
    ensures st.store.transactions[..|s.transactions|] == s.transactions
    ensures st.store.transactions[|s.transactions|]
            == Transaction(u, Withdrawal, -amount, RoundCents(s.accounts[u].balance - amount), now)
    ensures st.store.transactions[|s.transactions| + 1] == Transaction(u, Fee, -st.reply.fee, st.reply.newBalance, now + 1)
  {
    var fee := BuyFee(amount);
    var price := ClampPrice(raw);
    var units := UnitsFor(amount, price);
    var after := RoundCents(s.accounts[u].balance - amount);
    var nb := RoundCents(after - fee);
    WholeCentsArith(s.accounts[u].balance, amount);
    WholeCentsArith(after, fee);
    var log := BuyLog(u, amount, after, fee, nb, now);
    assert log == [Transaction(u, Withdrawal, -amount, after, now), Transaction(u, Fee, -fee, nb, now + 1)];
    Step(Post(s, u, nb, log).(holdings := s.holdings + [Holding(u, sym, units, price, now)]),
         BuyReply(sym, units, price, amount, fee, nb))
  }

  /**
   * Rejects a missing account, then an unknown coin (matched after
   * upper-casing), then a balance below the amount plus fee; a frozen
   * account may trade and the amount is not checked for sign.
   */
  function Buy(s: Store, u: UserId, coin: string, amount: Mills, raw: real, now: int): (r: Result<Step<BuyReply>>)
    ensures u !in s.accounts ==> r == Err(NoAccount)
    ensures u in s.accounts && CoinOf(Upper(coin)).None? ==> r == Err(UnknownCoin)
    ensures u in s.accounts && CoinOf(Upper(coin)).Some? ==>
      var b := s.accounts[u].balance;
      var cost := RoundCents(amount + BuyFee(amount));
      && (r.Err? <==> b < cost)
      && (r.Err? ==> r.error == Insufficient(b, cost))
    ensures r.Ok? ==> u in s.accounts && Upper(coin) in Symbols
                      && r.value == BuyFilled(s, u, Upper(coin), amount, raw, now)
  {
    if u !in s.accounts then Err(NoAccount)
    else
      var sym := Upper(coin);
      if CoinOf(sym).None? then Err(UnknownCoin)
      else
        var b := s.accounts[u].balance;
        var cost := RoundCents(amount + BuyFee(amount));
        if b < cost then Err(Insufficient(b, cost))
        else Ok(BuyFilled(s, u, sym, amount, raw, now))
  }

  /**
   * For whole-cent amounts, a purchase costs exactly what the guard
   * checked: the balance drops by amount plus fee and stays non-negative.
   */
  lemma BuyDebitsCost(s: Store, u: UserId, coin: string, amount: Mills, raw: real, now: int)
    requires Buy(s, u, coin, amount, raw, now).Ok?
    requires WholeCents(s.accounts[u].balance) && WholeCents(amount)
    ensures var rep := Buy(s, u, coin, amount, raw, now).value.reply;
            && rep.newBalance == s.accounts[u].balance - (amount + rep.fee)
            && rep.newBalance >= 0
  {
    var b := s.accounts[u].balance;
    var fee := BuyFee(amount);
    WholeCentsArith(amount, fee);
    WholeCentsArith(b, amount);
    WholeCentsArith(b - amount, fee);
  }

  lemma BuyKeepsValid(s: Store, u: UserId, coin: string, amount: Mills, raw: real, now: int)
    requires Valid(s)
    ensures var r := Buy(s, u, coin, amount, raw, now); r.Ok? ==> Valid(r.value.store)
  {
    if Buy(s, u, coin, amount, raw, now).Ok? {
      BuyFilledKeepsValid(s, u, Upper(coin), amount, raw, now);
    }
  }

  lemma BuyFilledKeepsValid(s: Store, u: UserId, sym: string, amount: Mills, raw: real, now: int)
    requires Valid(s) && u in s.accounts
    ensures Valid(BuyFilled(s, u, sym, amount, raw, now).store)
  {
    var st := BuyFilled(s, u, sym, amount, raw, now);
    var log := BuyLog(u, amount, RoundCents(s.accounts[u].balance - amount), st.reply.fee, st.reply.newBalance, now);
    PostKeepsValid(s, u, st.reply.newBalance, log);
    ValidIgnoresRecords(Post(s, u, st.reply.newBalance, log), st.store);
  }

  // ---------------------------------------------------------------------
  // Sell

  /** Whether a holding is the user's position in the symbol. */
  predicate IsPosition(h: Holding, u: UserId, sym: string) {
    h.userId == u && h.coin == sym
  }

  /** The user's holdings of the symbol, oldest first. */
  function Position(hs: seq<Holding>, u: UserId, sym: string): seq<Holding> {
    Filter(hs, h => IsPosition(h, u, sym))
  }

  /** Every holding but the user's holdings of the symbol. */
  function Rest(hs: seq<Holding>, u: UserId, sym: string): (r: seq<Holding>)
    ensures forall h :: h in r <==> h in hs && !IsPosition(h, u, sym)
    ensures |r| == |hs| - |Position(hs, u, sym)|
  {
    FilterSplit(hs, h => IsPosition(h, u, sym), h => !IsPosition(h, u, sym));
    Filter(hs, h => !IsPosition(h, u, sym))
  }

  /** The total quantity of some holdings, in 1e-5 coins. */
  function TotalUnits(hs: seq<Holding>): int {
    if hs == [] then 0 else hs[0].units + TotalUnits(hs[1..])
  }

  /** `units` 1e-5 coins at `price` mills each, to the cent. */
  function ValueOf(units: int, price: Mills): (v: Mills)
    ensures WholeCents(v)
  {
    RoundCentsOf(units * price, 100000)
  }

  /** The value is `units * price / 100000` mills rounded to the nearest cent. */
  lemma ValueOfRounds(units: int, price: Mills)
    ensures var v := ValueOf(units, price);
            2 * v * 100000 - 1000000 <= 2 * units * price < 2 * v * 100000 + 1000000
  {
    var n := units * price;
    assert ValueOf(units, price) == RoundCentsOf(n, 100000);
  }

  /** The 10% capital gains tax on a sale, to the cent. */
  function SaleTax(gross: Mills): (tax: Mills)
    ensures WholeCents(tax)
    ensures 200 * tax - 1000 <= 20 * gross < 200 * tax + 1000
  {
    RoundScaled(gross, 10, 100)
  }

  datatype SellReply = SellReply(coin: string, units: int, price: Mills, gross: Mills, tax: Mills, net: Mills, newBalance: Mills)

  /** A sale's two entries: the gross credited, then the tax debited, each with the balance it leaves. */
  function SellLog(u: UserId, gross: Mills, after: Mills, tax: Mills, nb: Mills, now: int): (log: seq<Transaction>)
    ensures |log| == 2 && log[1].balanceAfter == nb
    ensures forall t :: t in log ==> t.userId == u
  {
    [Transaction(u, Deposit, gross, after, now), Transaction(u, Fee, -tax, nb, now + 1)]
  }

  /**
   * Selling a non-empty position at the clamped price: credits the gross,
   * then debits the tax, deletes exactly the holdings sold and logs both
   * moves.
   */
  function SellPosition(s: Store, u: UserId, sym: string, raw: real, now: int): (st: Step<SellReply>)
    requires u in s.accounts
  {
    var sold := Position(s.holdings, u, sym);
    var b := s.accounts[u].balance;
    var units := TotalUnits(sold);
    var price := ClampPrice(raw);
    var gross := ValueOf(units, price);
    var tax := SaleTax(gross);
    var after := RoundCents(b + gross);
    var nb := RoundCents(after - tax);
    Step(Post(s, u, nb, SellLog(u, gross, after, tax, nb, now)).(holdings := Rest(s.holdings, u, sym)),
         SellReply(sym, units, price, gross, tax, RoundCents(gross - tax), nb))
  }

  /**
   * Rejects a missing account, then an unknown coin, then a user with no
   * holding of it; otherwise sells every such holding at once.
   */
  function Sell(s: Store, u: UserId, coin: string, raw: real, now: int): (r: Result<Step<SellReply>>)
    ensures u !in s.accounts ==> r == Err(NoAccount)
    ensures u in s.accounts && CoinOf(Upper(coin)).None? ==> r == Err(UnknownCoin)
    ensures u in s.accounts && CoinOf(Upper(coin)).Some? ==>
      && (r.Err? <==> Position(s.holdings, u, Upper(coin)) == [])
      && (r.Err? ==> r.error == NoHoldings)
      && (r.Ok? ==> r.value == SellPosition(s, u, Upper(coin), raw, now))
  {
    if u !in s.accounts then Err(NoAccount)
    else
      var sym := Upper(coin);
      if CoinOf(sym).None? then Err(UnknownCoin)
      else if Position(s.holdings, u, sym) == [] then Err(NoHoldings)
      else Ok(SellPosition(s, u, sym, raw, now))
  }

  /**
   * For a whole-cent balance the sale credits exactly gross less tax, the
   * tax is between nothing and the gross, and the net is what it reports.
   */
  lemma SellCreditsNet(s: Store, u: UserId, coin: string, raw: real, now: int)
    requires Sell(s, u, coin, raw, now).Ok?
    requires WholeCents(s.accounts[u].balance)
    ensures var rep := Sell(s, u, coin, raw, now).value.reply;
            && rep.net == rep.gross - rep.tax
            && rep.newBalance == s.accounts[u].balance + rep.net
            && (rep.gross >= 0 ==> 0 <= rep.tax <= rep.gross)
  {
    SellPositionCreditsNet(s, u, Upper(coin), raw, now);
  }

  lemma SellPositionCreditsNet(s: Store, u: UserId, sym: string, raw: real, now: int)
    requires u in s.accounts && WholeCents(s.accounts[u].balance)
    ensures var rep := SellPosition(s, u, sym, raw, now).reply;
            && rep.net == rep.gross - rep.tax
            && rep.newBalance == s.accounts[u].balance + rep.net
            && (rep.gross >= 0 ==> 0 <= rep.tax <= rep.gross)
  {
    var b := s.accounts[u].balance;
    var gross := ValueOf(TotalUnits(Position(s.holdings, u, sym)), ClampPrice(raw));
    var tax := SaleTax(gross);
    WholeCentsArith(gross, tax);
    WholeCentsArith(b, gross);
    WholeCentsArith(b + gross, tax);
    SaleTaxBounds(gross);
    assert RoundCents(gross - tax) == gross - tax;
    assert RoundCents(RoundCents(b + gross) - tax) == b + gross - tax;
  }

  /** The tax on a non-negative whole-cent gross is between nothing and the gross. */
  lemma SaleTaxBounds(gross: Mills)
    requires WholeCents(gross)
    ensures gross >= 0 ==> 0 <= SaleTax(gross) <= gross
  {
    var tax := SaleTax(gross);
    var k := tax / 10;
    var g := gross / 10;
    assert tax == 10 * k && gross == 10 * g;
    assert 2000 * k - 1000 <= 200 * g < 2000 * k + 1000;
  }

  /**
   * A sale leaves nothing of that coin to sell, while the user's other
   * coins and everyone else's holdings are kept.
   */
  lemma SellClearsPosition(s: Store, u: UserId, coin: string, raw: real, now: int, raw2: real, later: int)
    requires Sell(s, u, coin, raw, now).Ok?
    ensures Sell(Sell(s, u, coin, raw, now).value.store, u, coin, raw2, later) == Err(NoHoldings)
    ensures forall h :: h in s.holdings && (h.userId != u || h.coin != Upper(coin)) ==>
            h in Sell(s, u, coin, raw, now).value.store.holdings
  {
  }

  /** What was just bought can be sold. */
  lemma BuyThenSell(s: Store, u: UserId, coin: string, amount: Mills, raw: real, now: int, raw2: real, later: int)
    requires Buy(s, u, coin, amount, raw, now).Ok?
    ensures Sell(Buy(s, u, coin, amount, raw, now).value.store, u, coin, raw2, later).Ok?
  {
    var s' := Buy(s, u, coin, amount, raw, now).value.store;
    var h := s'.holdings[|s'.holdings| - 1];
    assert h in s'.holdings;
    assert h in Position(s'.holdings, u, Upper(coin));
  }

  lemma SellKeepsValid(s: Store, u: UserId, coin: string, raw: real, now: int)
    requires Valid(s)
    ensures var r := Sell(s, u, coin, raw, now); r.Ok? ==> Valid(r.value.store)
  {
    if Sell(s, u, coin, raw, now).Ok? {
      SellPositionKeepsValid(s, u, Upper(coin), raw, now);
    }
  }

  lemma SellPositionKeepsValid(s: Store, u: UserId, sym: string, raw: real, now: int)
    requires Valid(s) && u in s.accounts
    ensures Valid(SellPosition(s, u, sym, raw, now).store)
  {
    var st := SellPosition(s, u, sym, raw, now);
    var rep := st.reply;
    var log := SellLog(u, rep.gross, RoundCents(s.accounts[u].balance + rep.gross), rep.tax, rep.newBalance, now);
    assert st.store == Post(s, u, rep.newBalance, log).(holdings := Rest(s.holdings, u, sym));
    PostKeepsValid(s, u, rep.newBalance, log);
    ValidIgnoresRecords(Post(s, u, rep.newBalance, log), st.store);
  }

  // ---------------------------------------------------------------------
  // Portfolio

  datatype Row = Row(coin: string, name: string, units: int, boughtAt: Mills, currentPrice: Mills, value: Mills, gainLoss: Mills)

  /**
   * One holding valued at a fresh clamped price; a holding whose symbol is
   * not listed (matched exactly, without upper-casing) is worth nothing.
   */
  function Appraise(h: Holding, raw: real): (row: Row)
    ensures CoinOf(h.coin).None? ==> row == Row(h.coin, "Unknown", h.units, h.boughtAt, 0, 0, 0)
    ensures CoinOf(h.coin).Some? ==>
      && row.currentPrice == ClampPrice(raw)
      && row.value == ValueOf(h.units, row.currentPrice)
      && row.gainLoss == row.value - ValueOf(h.units, h.boughtAt)
    ensures WholeCents(row.value) && WholeCents(row.gainLoss)
    ensures row.coin == h.coin && row.units == h.units && row.boughtAt == h.boughtAt
  {
    match CoinOf(h.coin)
    case None => Row(h.coin, "Unknown", h.units, h.boughtAt, 0, 0, 0)
    case Some(c) =>
      var price := ClampPrice(raw);
      var value := ValueOf(h.units, price);
      var basis := ValueOf(h.units, h.boughtAt);
      WholeCentsArith(value, basis);
      Row(h.coin, c.name, h.units, h.boughtAt, price, value, RoundCents(value - basis))
  }

  /** Appraise each holding, the k-th with its own raw price. */
  function Appraisals(hs: seq<Holding>, raws: nat -> real, k: nat): (rows: seq<Row>)
    ensures |rows| == |hs|
    ensures forall i :: 0 <= i < |hs| ==> rows[i] == Appraise(hs[i], raws(k + i))
    decreases |hs|
  {
    if hs == [] then []
    else
      var rest := Appraisals(hs[1..], raws, k + 1);
      var rows := [Appraise(hs[0], raws(k))] + rest;
      forall i | 1 <= i < |hs| ensures rows[i] == Appraise(hs[i], raws(k + i)) {
        assert rows[i] == rest[i - 1] && hs[i] == hs[1..][i - 1] && k + i == (k + 1) + (i - 1);
      }
      rows
  }

  /** The sum of the rows' values. */
  function TotalValue(rows: seq<Row>): Mills {
    if rows == [] then 0 else rows[0].value + TotalValue(rows[1..])
  }

  /** A sum of whole-cent values is whole cents, so the final rounding changes nothing. */
  lemma {:induction false} TotalValueWholeCents(rows: seq<Row>)
    requires forall i :: 0 <= i < |rows| ==> WholeCents(rows[i].value)
    ensures WholeCents(TotalValue(rows))
  {
    if rows != [] {
      TotalValueWholeCents(rows[1..]);
      WholeCentsArith(rows[0].value, TotalValue(rows[1..]));
    }
  }

  datatype PortfolioReply = PortfolioReply(rows: seq<Row>, totalValue: Mills)

  /**
   * The user's holdings, oldest first, each appraised, and the sum of their
   * values; no holdings give an empty list and a total of 0.
   */
  function Portfolio(s: Store, u: UserId, raws: nat -> real): (rep: PortfolioReply)
    ensures var mine := Filter(s.holdings, (h: Holding) => h.userId == u);
            && |rep.rows| == |mine|
            && (forall i :: 0 <= i < |mine| ==> rep.rows[i] == Appraise(mine[i], raws(i)))
            && rep.totalValue == TotalValue(rep.rows)
            && (mine == [] ==> rep.totalValue == 0)
  {
    var mine := Filter(s.holdings, (h: Holding) => h.userId == u);
    if mine == [] then PortfolioReply([], 0)
    else
      var rows := Appraisals(mine, raws, 0);
      TotalValueWholeCents(rows);
      PortfolioReply(rows, RoundCents(TotalValue(rows)))
  }
}
