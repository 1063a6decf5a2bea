# southbag ledger, modelled in Dafny

southbag is a joke bank run from a chat bot. Every user has one account
with a balance in dollars. The balance moves through a handful of
handlers:

- opening an account, fees, transfers, deposits, robbery, tier upgrades
  and gifts;
- three games: a coin flip, slots and a card draw;
- channel heists;
- hourly-compounding loans;
- begging and a daily bonus;
- jobs with shifts and income tax;
- crypto trading;
- insurance policies.

Every handler that moves money also appends transactions to a log, each
entry carrying the balance it leaves behind. The bot's replies can carry
inline command tags such as `[HOLD:30]` or `[POPUP:text]`. A small parser
pulls these tags out of the reply text.

This project models those handlers and the tag parser as pure Dafny
functions and proves properties of them.

- **Money** (`money.dfy`). An amount is an integer number of mills
  (thousandths of a dollar). The handlers' `Math.round(x * 100) / 100` is
  `Money.RoundCents`, which rounds a half up towards positive infinity.
  Every `Math.random()` a handler consumes is a parameter of type `Unit`,
  a real in [0, 1). Every `Date.now()` is an integer parameter `now`.
- **The store** (`ledger.dfy`) holds:
  - maps from user to account, job and insurance policy;
  - insertion-ordered sequences of transactions, loans, crypto holdings
    and heists.
- **Handlers.** A handler returns either `Err(e)`, meaning a tagged
  rejection with nothing written, or `Ok(Step(store', reply))`.
- **The invariant** `Ledger.Valid` has three parts, and every handler
  preserves it:
  - the log agrees with the balances: each account's latest entry
    carries its balance;
  - a user has at most one active loan;
  - heists are well formed, and a channel has at most one recruiting heist.
- **Tag parser** (`commands.dfy`). The parser works on strings as
  sequences of characters.

## Model

| member | source | states |
|---|---|---|
| Money.RoundCents | convex/accounts.ts:60 | `Math.round(x * 100) / 100` on mills: the result is whole cents, within half a cent of the input (halves go up), and whole-cent inputs are left alone |
| Money.RoundCentsShift | convex/accounts.ts:144-145 | Adding a whole-cent amount commutes with rounding to the cent |
| Money.WholeCentsArith | convex/accounts.ts:139 | Sums and differences of whole-cent amounts are whole cents, so the handlers' roundings of such sums are exact |
| Money.RoundScaledWhole | convex/gambling.ts:79 | A whole multiple of a whole-cent bet needs no rounding: rounding `bet * k` gives exactly `k * bet` |
| Money.DrawCents | convex/accounts.ts:268 | `Math.round((Math.random() * span + low) * 100) / 100` is a whole-cent amount between `low` and `low + span` |
| Money.PickIndex | convex/accounts.ts:35 | `Math.floor(Math.random() * n)` is an index below `n` |
| Money.UnitScaleBounds | convex/gambling.ts:115 | `Math.random() * n` lies in [0, n], below `n` when `n` is positive |
| Ledger.StatusOf | convex/accounts.ts:460 | A stored status tag means active, frozen or suspicious exactly for those three words; any other tag is kept verbatim |
| Ledger.SecondsUntil | convex/beg.ts:17 | `Math.ceil(ms / 1000)` for a positive wait: the least number of whole seconds that covers the wait |
| Ledger.ActiveLoan | convex/loans.ts:19-23 | `.first()` over the user's active loans: the earliest index holding an active loan of the user, and none exactly when there is no such loan |
| Ledger.RecruitingHeist | convex/heist.ts:15-19 | `.first()` over the channel's recruiting heists: the earliest recruiting heist of the channel, and none exactly when there is none |
| Ledger.FilterSplit | convex/crypto.ts:116 | Splitting a sequence by a test and its negation loses and duplicates nothing: the two parts together are a permutation of the whole |
| Ledger.LastForAppend | convex/accounts.ts:148-176 | The latest entry a user has in a log extended by new entries comes from the new entries when they contain one |
| Ledger.LastForSkips | convex/accounts.ts:295-318 | Entries appended for one user leave every other user's latest entry unchanged |
| Ledger.Post | convex/accounts.ts:106-115 | The patch-plus-insert write: only the user's balance changes, the entries are appended to the log, and every other account and table is kept |
| Ledger.PostKeepsAgreement | convex/accounts.ts:106-115 | Patching a user's balance and appending that user's entries, the last carrying the new balance, keeps every balance in agreement with the log |
| Ledger.PostKeepsValid | convex/accounts.ts:106-115 | The same single-user write keeps the whole store invariant |
| Ledger.PostPatchKeepsValid | convex/accounts.ts:107 | The write still keeps the invariant when other fields of the account record (timestamps, tier, status) change in the same patch |
| Ledger.PostLoansKeepsValid | convex/loans.ts:30-50 | The write keeps the invariant when the loan table is replaced by one with at most one active loan per user |
| Ledger.PostPatchLoansKeepsValid | convex/loans.ts:135-155 | The same when the account record is patched as well |
| Ledger.AddLoanKeepsOne | convex/loans.ts:19-40 | Inserting a loan for a user who has no active loan keeps at most one active loan per user |
| Ledger.PatchKeepsAgreement | convex/accounts.ts:237 | A patch that changes no balance and logs nothing keeps the log in agreement |
| Ledger.ValidIgnoresRecords | convex/jobs.ts:53-59 | The invariant depends on accounts, the log, loans and heists only; writing jobs, holdings or policies cannot break it |
| Ledger.EmptyIsValid | convex/schema.ts:14-40 | The empty store satisfies the invariant |
| Accounts.AccountNumber | convex/accounts.ts:25-31 | An account number is `NNNN-SBAG-NNNNN-L`: 17 characters, the fixed sigil at positions 4 to 9, a dash at 15 and a capital letter last |
| Accounts.DecimalStringLength | convex/accounts.ts:26-28 | A number between 1000 and 9999 (or 10000 and 99999) prints as exactly four (five) digits |
| Accounts.Open | convex/accounts.ts:14-75 | An existing account is returned untouched with nothing written; otherwise a new active account gets a starting balance from the ten-entry table, a deposit entry of it, and an opening-fee entry of 0.005 whose snapshot is the stored balance |
| Accounts.OpenIdempotent | convex/accounts.ts:18-22 | Opening twice writes nothing the second time and returns the same account |
| Accounts.OpeningFeeRoundsAway | convex/accounts.ts:34-60 | With exact arithmetic the half-cent opening fee rounds away: the stored balance is the starting balance |
| Accounts.OpenKeepsValid | convex/accounts.ts:38-72 | Opening keeps the store invariant |
| Accounts.ChargeFee | convex/accounts.ts:93-118 | No account: nothing written. Otherwise the balance is debited with no lower bound, `lastFeeAt` is stamped, and one fee entry is logged with the new balance |
| Accounts.ChargeFeeExact | convex/accounts.ts:106 | A whole-cent fee on a whole-cent balance takes exactly that fee |
| Accounts.ChargeFeeKeepsValid | convex/accounts.ts:106-115 | Charging a fee keeps the store invariant |
| Accounts.TransferFee | convex/accounts.ts:136 | The transfer fee is 15% of the amount, to the nearest cent |
| Accounts.TransferLog | convex/accounts.ts:144-174 | A transfer logs four entries: the amount, then the processing, transfer and breathing fees, each with the running balance and the clock stepping by one |
| Accounts.Transfer | convex/accounts.ts:120-186 | Rejects no account, then frozen, then a balance below amount plus fees; otherwise writes the four entries, and the stored balance is the last snapshot |
| Accounts.TransferWholeCents | convex/accounts.ts:135-145 | On whole-cent inputs the amount needed is the amount plus 0.50, 15% and 0.02, and the new balance is the old one less exactly that |
| Accounts.TransferKeepsValid | convex/accounts.ts:148-176 | A transfer keeps the store invariant |
| Accounts.DepositFunds | convex/accounts.ts:188-227 | No account is the only rejection; 73% of the request is credited, rounded, then a 0.25 fee is taken; two entries are logged |
| Accounts.DepositSnapshots | convex/accounts.ts:201-221 | On a whole-cent balance the deposit entry's snapshot is the balance plus the credit, and the fee entry's is that less 0.25 |
| Accounts.DepositKeepsValid | convex/accounts.ts:207-224 | A deposit keeps the store invariant |
| Accounts.FreezeAccount | convex/accounts.ts:229-240 | Freezes the account and changes nothing else; no account means no write |
| Accounts.SetStatus | convex/accounts.ts:452-463 | Stores any status tag unchecked; the balance, the other accounts and every other table are unchanged |
| Accounts.SetStatusKeepsValid | convex/accounts.ts:460 | Setting a status keeps the store invariant |
| Accounts.ToggleNotifications | convex/accounts.ts:324-336 | Flips the notification flag (unset counts as off) and returns the new value; nothing else changes |
| Accounts.ToggleTwiceRestores | convex/accounts.ts:332-333 | Toggling twice restores the store |
| Accounts.ToggleKeepsValid | convex/accounts.ts:333 | Toggling keeps the store invariant |
| Accounts.NotificationUsers | convex/accounts.ts:338-351 | The users returned are exactly those of the given users that have an account with notifications on |
| Accounts.NotificationUsersInOrder | convex/accounts.ts:341-348 | The result is the given list filtered by that test: input order and repeats are kept |
| Accounts.StolenAmount | convex/accounts.ts:285 | A stolen amount is whole cents, at least one cent, and below half the cap plus a cent and a half |
| Accounts.FenceFee | convex/accounts.ts:286 | The fence takes 30% of the stolen amount, to the nearest cent |
| Accounts.RobCaught | convex/accounts.ts:266-280 | A caught robber is fined between 0.50 and 2.00, becomes suspicious, and logs the fine with the new balance |
| Accounts.RobSucceeds | convex/accounts.ts:282-320 | A successful robbery takes from the victim and credits the robber the take less the fence, with one victim entry and two robber entries |
| Accounts.Rob | convex/accounts.ts:242-322 | Rejects self-robbery first, then no robber account, frozen, and no victim. Past those guards it succeeds exactly when the draw is below 0.45 (the robber is caught and fined, even when the victim is broke) or the victim has a positive balance; the only other outcome is the broke-victim rejection |
| Accounts.RobWholeCents | convex/accounts.ts:283-290 | With whole-cent balances the victim loses no more than the capped amount, and the victim's loss exceeds the robber's gain by exactly the fence |
| Accounts.RobArith | convex/accounts.ts:283-290 | The cent arithmetic behind that, free of the store |
| Accounts.RobCanOverdrawSubCentVictim | convex/accounts.ts:283-289 | A victim holding one mill still loses a whole cent and is left at -0.01 |
| Accounts.RobKeepsValid | convex/accounts.ts:242-322 | Every robbery outcome keeps the store invariant |
| Accounts.RobCaughtKeepsValid | convex/accounts.ts:268-278 | The caught path keeps the store invariant |
| Accounts.RobSucceedsKeepsValid | convex/accounts.ts:289-318 | The successful path, which writes two accounts, keeps the store invariant |
| Accounts.Rung | convex/accounts.ts:353-366 | The ladder position of a tier: 0 with no tier, and the named tier sits at that position |
| Accounts.Upgrade | convex/accounts.ts:356-390 | Rejects no account, then Obsidian as the top tier, then a balance below the next rung's cost; otherwise moves exactly one rung up for that rung's cost and logs it |
| Accounts.UpgradeKeepsValid | convex/accounts.ts:373-386 | An upgrade keeps the store invariant |
| Accounts.GiftTax | convex/accounts.ts:409 | The generosity tax is 20% of the amount, to the nearest cent |
| Accounts.GiftSucceeds | convex/accounts.ts:414-448 | A gift debits the sender the amount plus the tax and credits the recipient the amount. It logs two sender entries (the first snapshots the balance before tax) and one recipient entry |
| Accounts.Gift | convex/accounts.ts:392-450 | Rejects a self-gift, then no sender, then no recipient, then a sender below amount plus tax; a frozen sender may still give |
| Accounts.GiftWholeCents | convex/accounts.ts:409-416 | On whole-cent inputs the sender loses exactly amount plus tax and the recipient gains exactly the amount |
| Accounts.GiftKeepsValid | convex/accounts.ts:418-446 | A gift keeps the store invariant |
| Gambling.WagerError | convex/gambling.ts:15-17 | The shared guards in order: no account, frozen, then a balance below the bet |
| Gambling.Settle | convex/gambling.ts:79-81 | The slots and card-draw settlement: a positive multiplier pays the rounded product and nets it less the bet (a non-positive payout loses the bet); zero loses the bet; a negative multiplier loses the bet plus a penalty of that many bets |
| Gambling.SettleWholeMultiplier | convex/gambling.ts:79-81 | For a positive whole-cent bet and a whole multiplier `k` the net is exactly `(k - 1)` bets |
| Gambling.BreakEvenLoses | convex/gambling.ts:136-158 | The 0.9 "break even" band counts as a win and is logged as a deposit, yet on any whole-cent bet above 0.05 it loses money |
| Gambling.WagerEntry | convex/gambling.ts:29-36 | A game's entry is a deposit exactly when it was won, carrying the net and the new balance |
| Gambling.AfterWager | convex/gambling.ts:26 | On whole-cent inputs the new balance is the old one plus the net |
| Gambling.SettleStore | convex/gambling.ts:26-36 | The settlement write: only the player's balance moves, to the old balance plus the net on whole cents, and one entry is appended, a deposit exactly when the game was won, carrying the net, the new balance and the time; no other account or table changes |
| Gambling.SettleStoreKeepsValid | convex/gambling.ts:28-36 | Settling a game keeps the store invariant |
| Gambling.Flip | convex/gambling.ts:19 | Heads exactly when the draw is below one half |
| Gambling.Coinflip | convex/gambling.ts:4-40 | Rejects by the shared guards; otherwise wins exactly when the call spells the side that came up. A win pays 1.8 times the bet, rounded, and nets that payout less the bet, rounded, with no test on the payout's sign; a loss nets minus the bet |
| Gambling.CoinflipWinNets | convex/gambling.ts:24-25 | A winning flip on a whole-cent bet of either sign nets 0.8 of the bet, rounded |
| Gambling.CoinflipKeepsValid | convex/gambling.ts:28-36 | A flip keeps the store invariant |
| Gambling.Spin | convex/gambling.ts:58 | A reel shows one of the seven symbols |
| Gambling.SlotTenths | convex/gambling.ts:64-77 | The slot multiplier: 10 exactly for three diamonds, 7 for three money bags, -3 for three skulls, 5 for any other triple, 1.5 exactly for a pair, 0 with no two alike; so it is positive exactly for a pair or a non-skull triple and negative exactly for three skulls |
| Gambling.SlotTenthsSymmetric | convex/gambling.ts:65-71 | The multiplier does not depend on the order of the reels |
| Gambling.Slots | convex/gambling.ts:44-98 | Rejects by the shared guards; otherwise settles the bet at the reels' multiplier and counts a win exactly when the multiplier is positive |
| Gambling.ThreeSkullsCostFourBets | convex/gambling.ts:69-81 | Three skulls on a whole-cent bet cost four bets: the bet and a threefold penalty |
| Gambling.SlotsKeepsValid | convex/gambling.ts:86-94 | A spin keeps the store invariant |
| Gambling.Band | convex/gambling.ts:120-152 | A roll falls in the first band whose upper edge exceeds it |
| Gambling.BandsPartition | convex/gambling.ts:120-152 | The bands partition [0, 100): a roll between two consecutive edges lies in exactly that band |
| Gambling.Gamble | convex/gambling.ts:100-172 | Rejects by the shared guards; otherwise settles at the band's multiplier (15, 5, 3, 1.5, 0.9, 0, -1, -2) and counts the first five bands as wins |
| Gambling.CatastropheOverdraws | convex/gambling.ts:148-157 | Betting a whole positive balance and drawing the worst card leaves minus twice the bet |
| Gambling.GambleKeepsValid | convex/gambling.ts:160-168 | A card draw keeps the store invariant |
| Heists.ChargeHeistFee | convex/heist.ts:22-34 | A heist fee is one fee entry and a balance patch; on whole cents it takes exactly the fee |
| Heists.ChargeHeistFeeKeepsAgreement | convex/heist.ts:26-34 | Charging a heist fee keeps the log in agreement |
| Heists.Start | convex/heist.ts:4-46 | Rejects no account, frozen, then a channel with a recruiting heist, and succeeds exactly when none of those applies; then it charges 0.05 and opens a heist with the organizer as its only participant |
| Heists.StartOpensRecruiting | convex/heist.ts:36-42 | After a start the channel's recruiting heist is the new one, with the organizer alone in its crew |
| Heists.StartKeepsValid | convex/heist.ts:22-44 | Starting keeps the store invariant |
| Heists.OpenKeepsHeistsValid | convex/heist.ts:15-42 | Opening a well-formed heist in a channel with none recruiting keeps the heists valid |
| Heists.Join | convex/heist.ts:48-86 | Rejects no recruiting heist, then no account, then a participant already in, then a full crew of five; a frozen account may join; otherwise charges 0.03 and appends the user |
| Heists.JoinKeepsValid | convex/heist.ts:67-84 | Joining keeps the store invariant |
| Heists.RecruitKeepsHeistsValid | convex/heist.ts:64-82 | Appending a new participant to a heist with room keeps the crew distinct and at most five |
| Heists.SuccessChance | convex/heist.ts:101 | The success chance lies in [0.30, 0.80] and reaches 0.80 exactly from five participants |
| Heists.SuccessChanceMonotone | convex/heist.ts:101 | A bigger crew never has worse odds, and strictly better up to five |
| Heists.PayOne | convex/heist.ts:109-125 | Paying one participant credits the share when they have an account and touches no other account; whole cents are credited exactly |
| Heists.PayOneKeepsAgreement | convex/heist.ts:112-124 | Crediting one participant and logging the new balance keeps the log in agreement |
| Heists.PayEach | convex/heist.ts:109-125 | Paying the crew touches only crew members' accounts and no other table |
| Heists.PayEachKeepsAgreement | convex/heist.ts:115-124 | Paying the crew keeps the log in agreement |
| Heists.PayEachCredits | convex/heist.ts:109-116 | In a crew without repeats each member with a whole-cent balance gains exactly the share |
| Heists.FailureFine | convex/heist.ts:145 | A failure fine is whole cents in [0.05, 0.30] |
| Heists.FineOne | convex/heist.ts:145-155 | Fining a participant debits only that account; whole cents are debited exactly |
| Heists.FineOneKeepsAgreement | convex/heist.ts:146-155 | Fining one participant and logging the new balance keeps the log in agreement |
| Heists.FineEach | convex/heist.ts:138-157 | Fines every crew member that has an account, each between 0.05 and 0.30; nobody outside the crew is touched |
| Heists.FineEachKeepsAgreement | convex/heist.ts:146-155 | Fining the crew keeps the log in agreement |
| Heists.FineEachFinesMembers | convex/heist.ts:139-157 | Exactly the crew members with an account are fined, once each, in crew order; the others are skipped |
| Heists.Share | convex/heist.ts:105-107 | Each share is the vault less 25% insurance, divided by the crew size and rounded to the cent |
| Heists.Close | convex/heist.ts:127-159 | Closing sets the status and completion time of that heist alone |
| Heists.Execute | convex/heist.ts:88-168 | Rejects no recruiting heist, a caller other than the organizer, and a crew under two. Success comes with the chance for the crew size: crew members with accounts are paid the share of a vault in [0.50, 5.00]. Failure fines them. Either way the heist is closed |
| Heists.VaultSplit | convex/heist.ts:105-132 | The reported deductible and the crew's take add up to the vault within a cent |
| Heists.ExecuteCreditsCrew | convex/heist.ts:104-125 | On success every crew member with a whole-cent balance gains exactly the reported share |
| Heists.ExecuteKeepsValid | convex/heist.ts:104-166 | Executing keeps the store invariant |
| Heists.CloseKeepsHeistsValid | convex/heist.ts:127-159 | Closing a heist keeps the heists valid |
| Loans.HoursSince | convex/loans.ts:65 | Hours since the loan was taken: none at the moment it was taken, and never negative afterwards |
| Loans.RoundReal | convex/loans.ts:73 | `Math.round` on a real: the nearest integer, halves up |
| Loans.NearestCent | convex/loans.ts:66 | Rounding a real amount to the cent lands within half a cent of it |
| Loans.NearestCentMonotone | convex/loans.ts:66 | Rounding to the cent never reverses an order |
| Loans.GrownCentsMonotone | convex/loans.ts:66 | A non-negative principal grown by a larger factor is owed no less |
| Loans.GrownCentsUnit | convex/loans.ts:66 | A whole-cent principal grown by a factor of one is owed exactly |
| Loans.Owed | convex/loans.ts:65-66 | What a loan costs now (the principal times `(1 + rate)^hours`, to the cent) is a whole number of cents; check, repay and default all price a loan this way |
| Loans.OwedAtStart | convex/loans.ts:33-66 | With no time elapsed, and `x^0 = 1`, a loan costs exactly its principal |
| Loans.OwedGrows | convex/loans.ts:66 | When the power grows with time, so does the debt |
| Loans.DrawRate | convex/loans.ts:26 | The hourly rate is drawn in whole percent from 15% to 50% |
| Loans.Take | convex/loans.ts:4-52 | Rejects no account, then frozen, then below 0.10, then above 10.00, then an existing active loan, and succeeds exactly when none of those applies. It then records an active loan with the rounded principal owed and deposits the principal |
| Loans.TakeThenActive | convex/loans.ts:29-37 | After a loan is taken it is the user's active loan, and at once it costs its principal |
| Loans.TakeKeepsValid | convex/loans.ts:29-48 | Taking a loan keeps the store invariant, including at most one active loan per user |
| Loans.Check | convex/loans.ts:54-79 | Nothing exactly when the user has no active loan. Otherwise reports the loan, what it costs now, the interest so far and the hours elapsed in hundredths |
| Loans.CloseLoan | convex/loans.ts:109-144 | Closing a loan sets its status and final amount and changes no other loan |
| Loans.Repay | convex/loans.ts:81-122 | Rejects no active loan, then no account, then a balance below what is owed now; otherwise debits that amount, marks the loan paid and logs a withdrawal. A frozen account may repay |
| Loans.CloseLeavesNoActiveLoan | convex/loans.ts:109-144 | Closing a user's only active loan leaves them without one, and keeps at most one active loan per user |
| Loans.RepayClearsLoan | convex/loans.ts:109 | A repaid user has no active loan and may borrow again |
| Loans.RepayKeepsValid | convex/loans.ts:106-118 | Repaying keeps the store invariant |
| Loans.Default | convex/loans.ts:124-158 | Rejects no active loan, then no account. Otherwise marks the loan defaulted at what is owed now and freezes the account. It logs the debt as a fee whose snapshot is the unchanged balance |
| Loans.DefaultFreezes | convex/loans.ts:144-152 | A defaulter is frozen, keeps their balance, and has no active loan left |
| Loans.DefaultKeepsValid | convex/loans.ts:144-154 | Defaulting keeps the store invariant |
| Begging.OutcomeOf | convex/beg.ts:24-49 | The outcome bands: below 0.50 denied, then tiny to 0.70, decent to 0.85, reverse to 0.95, jackpot above |
| Begging.DrawMills | convex/beg.ts:32 | `Math.round((Math.random() * span + low) * 1000) / 1000` lies between `low` and `low + span` mills |
| Begging.Amount | convex/beg.ts:24-49 | Nothing exactly when denied; 0.001 to 0.010 when tiny; whole cents from 0.01 to 0.05 when decent or reversed; whole cents from 0.10 to 0.50 as a jackpot |
| Begging.Beg | convex/beg.ts:4-80 | Rejects no account, then a beg less than a minute after the last one, with the seconds left rounded up. A frozen account may beg. Otherwise the balance moves by exactly the amount (down only when reversed), one fee or deposit entry is logged unless nothing moved, and the time of the beg is stamped |
| Begging.BegBounds | convex/beg.ts:24-74 | A beg moves the balance between -0.05 and +0.50, leaves it alone when denied, and lowers it exactly when reversed |
| Begging.BegThenCooldown | convex/beg.ts:14-76 | A second beg within a minute of a beg is refused with the remaining wait |
| Begging.BegAfterCooldown | convex/beg.ts:14 | Once a minute has passed the user may beg again |
| Begging.BegKeepsValid | convex/beg.ts:51-76 | Begging keeps the store invariant |
| Daily.Wait | convex/daily.ts:17-21 | The cooldown reply splits the wait into whole hours and the whole minutes past them; within a day that is at most 24h 0m |
| Daily.Reward | convex/daily.ts:24-29 | The reward is whole cents from 0.01 to 0.25, or a multiple of 0.05 from 0.05 to 1.25 on a bonus day (a bonus draw below 0.05) |
| Daily.Claim | convex/daily.ts:4-56 | Rejects no account, then a claim less than a day after the last one. A frozen account may claim. Otherwise the reward less the 0.005 fee, rounded, is credited and the day restarts. The reward and the fee are logged apart, the fee a millisecond later and carrying the stored balance |
| Daily.FeeRoundsAway | convex/daily.ts:30-32 | With exact arithmetic the half-cent fee rounds away: the net is the full reward and a whole-cent balance grows by all of it, though a fee entry is logged |
| Daily.ClaimThenCooldown | convex/daily.ts:16-34 | A second claim within a day of a claim is refused with the remaining wait |
| Daily.ClaimKeepsValid | convex/daily.ts:34-52 | Claiming keeps the store invariant |
| Daily.Granted | convex/daily.ts:28-52 | A granted claim: the reply carries the drawn reward and the 0.005 fee, the balance moves by the rounded net on whole cents and the day restarts at `now`. Two entries are appended, the reward with the balance it alone would leave and then the fee with the new balance a millisecond later. No other account or table changes |
| Daily.GrantedKeepsValid | convex/daily.ts:34-52 | The granted path, with its two log entries, keeps the store invariant |
| Jobs.Assign | convex/jobs.ts:4-50 | A hire draws one of the sixteen listings, and every salary is a whole number of cents between 0 and 100 |
| Jobs.ListingSalaries | convex/jobs.ts:4-21 | Listing by listing, each salary is whole cents within [0, 100] |
| Jobs.Apply | convex/jobs.ts:33-76 | Rejects a user who already has a job (naming that job) before it checks for an account, then no account. Otherwise hires into the drawn listing with no shift worked and charges the 0.02 uniform fee even into overdraft, logging it |
| Jobs.ApplyTwice | convex/jobs.ts:36-63 | Applying again is refused with the title just drawn, and a whole-cent balance loses exactly two cents to the first application |
| Jobs.ApplyKeepsValid | convex/jobs.ts:53-72 | Applying keeps the store invariant |
| Jobs.ShiftOf | convex/jobs.ts:101-128 | The shift bands: overtime below 0.10, docked to 0.20, an incident to 0.25, otherwise a regular shift |
| Jobs.Gross | convex/jobs.ts:102-112 | A regular shift pays the salary; overtime pays 2.5 times it and a docked shift 0.3 times it, each within half a cent |
| Jobs.IncomeTax | convex/jobs.ts:131 | The income tax is 40% of the gross pay, to the nearest cent |
| Jobs.TaxSplit | convex/jobs.ts:131-132 | On a whole-cent gross the net and the tax add up to the gross, and the tax of a non-negative gross lies between nothing and all of it |
| Jobs.Work | convex/jobs.ts:78-98 | Rejects no job, then no account, then a shift within 30 seconds of the last, with the seconds left rounded up; a frozen account may work. Otherwise the shift is worked |
| Jobs.Worked | convex/jobs.ts:100-155 | An incident fines 0.01 to 0.11 and logs one fee entry. Any other shift credits the gross less tax, logging the net and then the tax a millisecond later, both carrying the new balance. The shift is stamped either way, and no other table changes |
| Jobs.WorkSettlesExactly | convex/jobs.ts:116-133 | On whole cents a paid shift moves the balance by exactly the net and net plus tax is the gross; an incident takes exactly the fine |
| Jobs.HireCanWork | convex/jobs.ts:58-95 | A fresh hire has no shift on record and can work at once |
| Jobs.WorkThenCooldown | convex/jobs.ts:94-136 | A second shift within 30 seconds of a shift is refused with the remaining wait |
| Jobs.WorkKeepsValid | convex/jobs.ts:100-153 | Working keeps the store invariant |
| Jobs.WorkedKeepsValid | convex/jobs.ts:100-153 | Both shift outcomes keep the store invariant |
| Jobs.Quit | convex/jobs.ts:159-192 | Rejects no job; otherwise deletes the job and charges the 0.05 exit fee exactly when the user has an account |
| Jobs.QuitThenUnemployed | convex/jobs.ts:159-169 | After quitting there is no job to work or quit, and applying again succeeds exactly for a user with an account |
| Jobs.QuitKeepsValid | convex/jobs.ts:169-187 | Quitting keeps the store invariant |
| Crypto.CoinOf | convex/crypto.ts:4-10 | A symbol names a coin exactly when it is one of SBAG, FEES, SCAM, HODL and RUG |
| Crypto.UpperChar | convex/crypto.ts:50 | `toUpperCase` leaves no ASCII lower-case letter, no dotless i and no long s; it maps a to z onto A to Z and keeps every other character |
| Crypto.Upper | convex/crypto.ts:50 | Upper-casing a string upper-cases each character and keeps the length |
| Crypto.UpperIdempotent | convex/crypto.ts:50-51 | Upper-casing twice is upper-casing once |
| Crypto.SpellingsFindCoins | convex/crypto.ts:50-52 | Any casing of a symbol finds its coin, a long s stands for an S, and an unlisted name finds nothing |
| Crypto.ClampPrice | convex/crypto.ts:14 | A price is at least 0.001 and otherwise the raw price to the nearest mill |
| Crypto.BuyFee | convex/crypto.ts:54 | The convenience fee is 5% of the amount, to the nearest cent |
| Crypto.UnitsFor | convex/crypto.ts:60 | The coins bought are `amount / price` to the nearest 1e-5 coin |
| Crypto.Buy | convex/crypto.ts:41-96 | Rejects no account, then an unknown coin after upper-casing, then a balance below the rounded amount plus fee. A frozen account may buy, and the amount's sign is not checked. Otherwise the amount and then the fee are debited, one holding is inserted at the clamped price, and both debits are logged |
| Crypto.BuyDebitsCost | convex/crypto.ts:55-64 | On whole cents the balance drops by exactly amount plus fee, the cost the guard checked, and stays non-negative |
| Crypto.BuyKeepsValid | convex/crypto.ts:63-92 | Buying keeps the store invariant |
| Crypto.BuyFilled | convex/crypto.ts:54-92 | A filled purchase: the fee is 5% of the amount and the units are amount over the clamped price. A whole-cent balance and amount drop by exactly amount plus fee. One holding is appended at that price. Two debits are logged, the amount then the fee a millisecond later. Loans, jobs, policies, heists and other accounts are untouched |
| Crypto.BuyFilledKeepsValid | convex/crypto.ts:63-92 | The filled purchase, with its two entries and new holding, keeps the store invariant |
| Crypto.Rest | convex/crypto.ts:133-135 | Deleting a position keeps exactly the holdings outside it, and only removes the position's holdings |
| Crypto.ValueOf | convex/crypto.ts:122 | The value of a quantity at a price is whole cents |
| Crypto.ValueOfRounds | convex/crypto.ts:122 | That value is the quantity times the price, to the nearest cent |
| Crypto.SaleTax | convex/crypto.ts:123 | The capital gains tax is 10% of the gross, to the nearest cent |
| Crypto.SaleTaxBounds | convex/crypto.ts:123-124 | The tax on a non-negative whole-cent gross is between nothing and the gross |
| Crypto.Sell | convex/crypto.ts:98-157 | Rejects no account, then an unknown coin, then no holdings of it; otherwise sells the whole position at once |
| Crypto.SellCreditsNet | convex/crypto.ts:122-128 | On a whole-cent balance a sale credits exactly the gross less the tax, and the reported net is that difference |
| Crypto.SellPositionCreditsNet | convex/crypto.ts:120-128 | The same for the selling step itself |
| Crypto.SellClearsPosition | convex/crypto.ts:116-135 | After a sale a second one finds no holdings, and every other holding is kept |
| Crypto.BuyThenSell | convex/crypto.ts:68-118 | What was just bought can be sold |
| Crypto.SellKeepsValid | convex/crypto.ts:127-153 | Selling keeps the store invariant |
| Crypto.SellPositionKeepsValid | convex/crypto.ts:127-153 | The selling step keeps the store invariant |
| Crypto.Appraise | convex/crypto.ts:169-177 | An unlisted coin, matched exactly, is reported as Unknown and worth nothing. A listed one is valued at a fresh price, and its gain is the value less the cost basis. Both are whole cents |
| Crypto.Appraisals | convex/crypto.ts:169 | Each holding is appraised at its own price draw, in order |
| Crypto.TotalValueWholeCents | convex/crypto.ts:179 | A sum of whole-cent values is whole cents, so the final rounding of the total changes nothing |
| Crypto.Portfolio | convex/crypto.ts:159-182 | One row per holding of the user, oldest first; the total is the sum of the rows' values, and no holdings give a total of 0 |
| Insurance.LookupPlan | convex/insurance.ts:4-43 | Corrected lookup: a key names a plan exactly when it is basic, silver or gold, with the table's names, premiums (0.10, 0.25, 0.50) and durations (1, 4 and 24 hours) |
| Insurance.LowerChar | convex/insurance.ts:43 | `toLowerCase` leaves no ASCII capital, maps A to Z onto a to z and keeps every other character |
| Insurance.Lower | convex/insurance.ts:43 | Lower-casing a string lower-cases each character and keeps the length |
| Insurance.PlanEntryAsWritten | convex/insurance.ts:4-43 | Indexing the plan table as written: a listed plan exactly for the three own keys, an inherited member exactly for `constructor` and `__proto__`, nothing otherwise |
| Insurance.PurchaseGuardAsWritten | convex/insurance.ts:43-53 | The guards as written reject only absent entries as unknown. For a listed plan they compare the balance with premium plus fee. For an inherited member they let the purchase through with a NaN balance |
| Insurance.InheritedKeysCorruptBalance | convex/insurance.ts:43-55 | The plan names `constructor` and `__proto__`, in any casing, pass every guard whatever the balance and overwrite it with NaN |
| Insurance.LookupPlanRefusesInherited | convex/insurance.ts:43-44 | The corrected lookup agrees with the table on its own keys and refuses the inherited members |
| Insurance.GetPlan | convex/insurance.ts:21-32 | No plan exactly when the user has no policy; otherwise the policy, active exactly while `now` is before its end |
| Insurance.Purchase | convex/insurance.ts:34-99 | The corrected purchase, which looks plans up with the corrected lookup rather than indexing the table as at line 43. Rejects no account, then a plan name outside the three after lower-casing, then a balance below premium plus 0.03. A frozen account may buy. Otherwise the purchase is made |
| Insurance.PurchaseCovers | convex/insurance.ts:47-77 | After a purchase the user's policy is active exactly until now plus the plan's duration, and a whole-cent balance pays exactly premium plus fee without going negative |
| Insurance.PurchaseRefusesInherited | convex/insurance.ts:43-44 | The corrected purchase refuses `constructor` and `__proto__` as unknown plans |
| Insurance.PurchaseKeepsValid | convex/insurance.ts:52-95 | Purchasing keeps the store invariant |
| Insurance.Bought | convex/insurance.ts:52-95 | The purchase write: the user's policy covers until now plus the duration, keeping an existing policy's creation time, and no other policy changes. A whole-cent balance drops by exactly premium plus 0.03. The premium and the fee are logged a millisecond apart, and the other tables are untouched |
| Insurance.BoughtKeepsValid | convex/insurance.ts:52-95 | The purchase step, with its two entries and policy write, keeps the store invariant |
| Insurance.Claim | convex/insurance.ts:101-129 | Only a missing account is rejected. Every claim, insured or not and whatever the balance, pays the 0.02 processing fee, logs it, and is denied for one of the eight reasons |
| Insurance.ClaimOnlyCosts | convex/insurance.ts:110-113 | A claim leaves the policy alone and takes exactly two cents from a whole-cent balance, even below zero |
| Insurance.ClaimKeepsValid | convex/insurance.ts:111-123 | Claiming keeps the store invariant |
| TransactionLog.Mine | convex/transactions.ts:7-10 | The entries listed for a user are exactly the log's entries of that user |
| TransactionLog.Insert | convex/transactions.ts:11 | Inserting into a newest-first sequence keeps it newest first, and the result holds the old elements plus the new one, nothing else |
| TransactionLog.SortNewestFirst | convex/transactions.ts:11 | The sort yields a newest-first permutation of its input |
| TransactionLog.InsertKeepsTies | convex/transactions.ts:11 | Insertion keeps the relative order of entries stamped at the same time |
| TransactionLog.SortKeepsTies | convex/transactions.ts:7-11 | The sort is stable: entries stamped at the same time keep the order in which they were logged |
| TransactionLog.TopEntries | convex/transactions.ts:12 | Cutting a newest-first sequence keeps it newest first and leaves out no entry newer than the last one kept |
| TransactionLog.List | convex/transactions.ts:4-14 | A listing has only the user's entries, at most twenty, newest first, and omits none newer than the last one listed |
| TransactionLog.ListShort | convex/transactions.ts:12 | A user with at most twenty entries gets all of them, each as often as logged |
| TransactionLog.ListKeepsTies | convex/transactions.ts:7-12 | The listing is stable: the entries it shows for any one time come in log order and are the first of the user's entries at that time |
| Commands.Rank | src/commands.js:5-67 | Each tag has a place in the fixed order in which the parser looks for tags |
| Commands.Opening | src/commands.js:6-63 | Every tag's pattern opens with `[` |
| Commands.IndexFrom | src/commands.js:20-22 | `indexOf`: the first occurrence of a string at or after a position, and none exactly when it occurs nowhere there |
| Commands.ReplaceFirst | src/commands.js:9-22 | `replace` with a string pattern cuts out its first occurrence, and leaves a string without one unchanged |
| Commands.TrimStart | src/commands.js:9 | Trimming the front drops a prefix of white space and nothing more |
| Commands.TrimEnd | src/commands.js:9 | Trimming the back drops a suffix of white space and nothing more |
| Commands.Trim | src/commands.js:9-66 | `trim` leaves no white space at either end and leaves a string already without any untouched |
| Commands.TrimIdempotent | src/commands.js:9-16 | Trimming twice is trimming once |
| Commands.CloseFrom | src/commands.js:6-63 | The lazy `(.*?)\]` stops at the first `]`, and fails when a line terminator comes first |
| Commands.DigitEnd | src/commands.js:13-51 | `(\d+)` takes the whole run of digits |
| Commands.MatchAt | src/commands.js:6-63 | A match starting at a position: the whole tag for a literal one; otherwise the opening, a capture that is clean (lazy) or non-empty digits, and `]` |
| Commands.MatchWith | src/commands.js:6-63 | The same, for a given opening and capture shape |
| Commands.FindFrom | src/commands.js:6-63 | `match` finds a match of the pattern at or after a position |
| Commands.FindFromFirst | src/commands.js:6-63 | The match found is the leftmost one, and none is found exactly when none exists |
| Commands.OccurrenceMatches | src/commands.js:9-16 | Wherever the text of a match occurs again, the pattern matches there too |
| Commands.MatchIsFirstOccurrence | src/commands.js:9-66 | The matched text occurs nowhere before the match, so `replace(match[0], '')` finds the match itself |
| Commands.CutMatch | src/commands.js:9-66 | Replacing the first occurrence of the matched text cuts out exactly the match |
| Commands.HoldSeconds | src/commands.js:15 | `Math.min(parseInt(d), 120)`: the digits' decimal value, capped at 120 |
| Commands.CommandFor | src/commands.js:8-65 | Every tag records exactly one command of its own kind with the capture, except SLOWTYPE, which records none; holds are capped at two minutes |
| Commands.Pass | src/commands.js:6-67 | One tag's step: with no match, nothing changes and nothing is trimmed; otherwise the leftmost match is cut out, the rest trimmed, and the tag's command appended |
| Commands.ParseCommands | src/commands.js:1-70 | The commands come out in the tag order, at most one per tag, and no hold exceeds two minutes |
| Commands.RunExtends | src/commands.js:5-67 | Running the tag steps keeps the commands found so far as a prefix and adds at most one command per tag, each of a tag that was run |
| Commands.RunInOrder | src/commands.js:5-67 | Running the remaining tags keeps the commands in the tag order with holds capped |
| Commands.NoTagUnchanged | src/commands.js:1-70 | A reply without `[` comes back unchanged, untrimmed, with no command |
| Commands.OneTag | src/commands.js:1-70 | A reply that carries a single tag loses that tag, and the rest is trimmed. The tag's command is recorded with the capture it holds |
| Commands.OneTagAt | src/commands.js:1-70 | Where the only `[` starts a tag's text, that tag alone is acted on |
| Commands.PassAtTag | src/commands.js:6-10 | The tag's own step cuts its text out and leaves no `[` behind |
| Commands.FoundAt | src/commands.js:6-63 | A tag's text with no `[` before it is the tag's leftmost match, capture included |
| Commands.LeftmostFound | src/commands.js:6-63 | A match with no `[` before it is the one found |
| Commands.OtherTagsMiss | src/commands.js:5-67 | Where the only `[` opens one tag, no other tag's pattern matches anywhere |
| Commands.RunAppend | src/commands.js:5-67 | Running tags in two batches is running them in one |
| Commands.RunSkips | src/commands.js:5-67 | Tags that match nowhere leave the text and commands alone |

## Left out

- Floating point. Every amount is an exact number of mills, and every `Math.round(x * 100) / 100` is exact rounding to the cent, halves up. IEEE doubles can land one cent off where a product or sum is not representable; the model does not follow them. In particular the half-cent opening and daily fees round away exactly (see `OpeningFeeRoundsAway`, `FeeRoundsAway`), where doubles may round differently.
- Amounts are whole mills. A request for a fraction of a mill cannot be expressed, so the handlers' inputs are `int` mills.
- Random draws and the clock. Every `Math.random()` is a parameter in [0, 1) and every `Date.now()` is the parameter `now`. Nothing constrains how draws are distributed.
- `Math.pow` in the loan price (convex/loans.ts:66, 98, 141) is a parameter of type `Power`; lemmas state what they assume of it.
- Loans.Owed: states only that the price is whole cents, because the growth factor comes from the `Power` parameter. `OwedAtStart` and `OwedGrows` relate it to time under stated assumptions on that parameter.
- The raw coin price (convex/crypto.ts:12-13), a sine of the clock plus noise, is floating point; it is an input `raw`, and only the clamp and rounding to the mill (line 14) is modelled. `change24h` and the read-only queries `getPrice` and `getPrices` (convex/crypto.ts:17-39) are left out for the same reason.
- Crypto.SellPosition: the selling step carries no contract of its own. What a sale does is stated by `Crypto.Sell`, `Crypto.SellPositionCreditsNet`, `Crypto.SellClearsPosition` and `Crypto.SellPositionKeepsValid`.
- Read-only lookups `get` and `getBalance` (convex/accounts.ts:4-12, 77-91) and `getJob` (convex/jobs.ts:23-31) return a stored record unchanged. The store's maps give them directly.
- Texts: transaction descriptions, reply messages and the wording of errors are not kept. Errors are tags with the numbers they report.
- Case mapping. `toUpperCase` is modelled for ASCII letters and for the two non-ASCII letters whose capital is ASCII (dotless i, long s). `toLowerCase` is modelled for ASCII capitals only. The Kelvin sign, which lower-cases to `k`, cannot form any plan name. Other characters whose mapping changes length cannot form a symbol or a plan name either.
- Concurrency. Each handler is one atomic step on the store; interleavings of concurrent mutations are not modelled.
- Document identifiers (`_id`) are not modelled. Accounts, jobs and policies are maps keyed by user, since every handler that inserts one first checks for an existing record (or updates it in place); duplicates, which only concurrent inserts could create, cannot be expressed. The other tables are sequences in insertion order.
- `executeCommands` (src/commands.js:72-169) is chat I/O: posting messages, reactions and timers. It is not part of this model.
- convex/messages.ts (conversation history) and the chat front end under src/ other than `parseCommands` are not part of this model.
- `parseInt` on a run of digits is exact here; JavaScript loses precision above 2^53, which cannot change a value capped at 120.

## Findings

| source | as written | input that shows it | evidently intended | confidence | as-written member | corrected member |
|---|---|---|---|---|---|---|
| convex/insurance.ts:43-44 | `PLANS[args.plan.toLowerCase()]` indexes a plain object, so inherited members are truthy and pass the plan check; their premium is undefined, so the cost, the balance test and the new balance are all NaN | `purchase` with plan `"constructor"` (or `"__proto__"`), any balance | only the three listed plans pass; any other name is `unknown_plan` | not executed | Insurance.InheritedKeysCorruptBalance | Insurance.PurchaseRefusesInherited |
