# Hisab: split calculator and balance aggregator in Dafny

Hisab is a front end for sharing expenses. Its logic lives in two pure
computations, and this project models both along with the page logic built on
them:

- **Split calculator.** `calculateSplits` (src/pages/AddExpense.tsx) takes the
  typed amount, the selected participants and one of four methods. It returns
  each participant's share as `toFixed(2)` text and sets the form's split error:
  - `equal`: the amount divided by the number of participants;
  - `exact`: the entered amounts;
  - `percentage`: entered percentages of the amount;
  - `shares`: entered weights.

  Next to it sit the decimal-input filter, the participant and payer toggles,
  the split preview total and the submit handler.
- **Balance aggregator.** `calculateBalances` (src/lib/data.ts) scans the
  expenses for one target user. On each expense it computes the target's net
  (paid minus share). It then attributes capped, proportional amounts either to
  `owedBy` (others owe the target) or to `owes` (the target owes others).
  `getCategoryTotals` sums the target's shares per note category. The lookups
  and list helpers of the same file are modelled too.
- **Balances page.** These sit on top of the aggregator (src/pages/Balances.tsx):
  - the per-counterpart net;
  - the de-duplicated counterpart list;
  - the overview and person-to-person display filters;
  - settlement-form validation;
  - the recent-settlement list.

Modules:

| file | module | contents |
|---|---|---|
| wrappers.dfy | `Wrappers` | `Option` |
| seqs.dfy | `Seqs` | filter, find, first-occurrence de-duplication, descending sort and `slice`, real sums |
| numbers.dfy | `Numbers` | JavaScript numbers with NaN, `parseFloat`, `toFixed(2)`, the `^\d*\.?\d*$` input filter |
| records.dfy | `Records` | JavaScript objects used as number tables (`r[k] = (r[k] \|\| 0) + v`, key insertion order) |
| model.dfy | `Model` | users, groups, expenses, settlements, balances, currencies, the sample data, lookups and list helpers |
| splits.dfy | `Splits` | `calculateSplits`, the preview total, the toggles, the submit handler |
| balances.dfy | `Balances` | `calculateBalances`, `getCategoryTotals` |
| balanceview.dfy | `BalanceView` | the Balances page logic |

Representation choices:
- Money is a Dafny `real`, so there are no binary floating-point effects.
- `toFixed(2)` is rounding to the nearest cent with ties away from zero. It
  yields `Cents(n)`, or `NaNText` for NaN.
- JavaScript NaN is explicit: `JsNumber = Num(real) | NaN`. Addition absorbs
  NaN, NaN is falsy, and every comparison with NaN is false.
- `parseFloat` reads the longest prefix made of an optional sign, digits, an
  optional '.' and digits.
- Timestamps are integers that order like the dates they stand for.
- The module-level sample arrays become parameters. The sample data are
  constants that the worked examples use.

Behaviours of the code worth knowing:
- An `equal` split of 120.50 among three shows 40.17 to each, 120.51 in all
  (`Splits.EqualSample`). Each share is rounded on its own and no cent is
  redistributed.
- With two overpaying payers, a target's deficit of 50 is attributed as
  70/3 + 10 (`Balances.AttributionFallsShort`), so summed over the
  counterparts `owes` can fall short of the target's deficit.
- `calculateBalances` does not read settlements.
- The recent-settlement list reads field names `Settlement` does not declare,
  so as written it is always empty (`BalanceView.RecentSettlementsAsWritten`).
  The rest of the model uses the intended list (`BalanceView.RecentSettlements`).

## Model

| member | source | states |
|---|---|---|
| `Splits.SplitsFor` | src/pages/AddExpense.tsx:121-196 | a falsy (zero or NaN) amount or an empty participant list returns no shares and leaves the earlier split error in place; an unrecognised method returns no shares and clears the error; otherwise the table has exactly one entry per participant unless the weights total zero |
| `Splits.CalculateSplits` | src/pages/AddExpense.tsx:121-196 | on the form's own text: a falsy amount or no participants shows nothing and keeps the held error; past that, `equal` never raises an error, an unrecognised method shows nothing and clears the error, the "cannot be zero" error comes only from `shares` with an empty table, and otherwise the table has exactly one entry per participant |
| `Splits.EmptyBoxDefaults` | src/pages/AddExpense.tsx:140-185 | a missing or empty box reads as 0 for `exact`/`percentage` and as 1 for `shares` |
| `Splits.EqualSplitShares` | src/pages/AddExpense.tsx:128-133 | `equal` raises no error, gives every participant the same cent amount, and n copies of it lie within n/2 cents of the amount |
| `Splits.PreviewTotal` | src/pages/AddExpense.tsx:227-228 | the preview total is a number exactly when every participant's shown share is a number |
| `Splits.EqualPreviewTotal` | src/pages/AddExpense.tsx:227-228 | for distinct participants the preview total of an `equal` split is a number within half a cent per participant of the amount |
| `Splits.ReadBackParses` | src/pages/AddExpense.tsx:228 | `parseFloat` of a `toFixed(2)` text gives back exactly the rounded amount it shows, or NaN for "NaN" |
| `Numbers.TextRoundTrip` | src/pages/AddExpense.tsx:228 | the decimal text of any cent amount, negative ones included, parses back to that amount |
| `Numbers.RoundCents` | src/pages/AddExpense.tsx:131 | the cent count shown is within half a cent of 100·x, a tie going away from zero |
| `Numbers.RoundCentsUnique` | src/pages/AddExpense.tsx:131 | that rounding is the only integer with those properties |
| `Splits.ExactSplitSpec` | src/pages/AddExpense.tsx:135-150 | each participant is shown their box to the cent; the mismatch error is raised iff every box is a number and their sum is more than 0.01 from the amount, quoting both; the table is returned either way |
| `Splits.PercentageSplitSpec` | src/pages/AddExpense.tsx:152-168 | each participant is shown amount·pct/100 to the cent ("NaN" for an unreadable box); the error is raised iff every box is a number and the percentages sum to more than 0.01 from 100 |
| `Splits.SharesSplitSpec` | src/pages/AddExpense.tsx:170-190 | zero total weight gives no shares and the "cannot be zero" error; otherwise no error and participant i is shown amount·wᵢ/Σw to the cent |
| `Splits.SharesSplitUnreadable` | src/pages/AddExpense.tsx:174-190 | with an unreadable weight the total is NaN, no error is raised and every share shows "NaN" |
| `Splits.UnroundedSum` | src/pages/AddExpense.tsx:184-188 | before rounding the `shares` slices add up to the amount |
| `Splits.UnroundedProportional` | src/pages/AddExpense.tsx:184-188 | before rounding any two slices stand in the ratio of their weights |
| `Splits.EqualSample` | src/pages/AddExpense.tsx:128-133 | 120.50 split equally among three shows 40.17 to each |
| `Splits.SharesSample` | src/pages/AddExpense.tsx:170-190 | 80 with weights 1, empty (read as 1) and 2 shows 20, 20 and 40 |
| `Splits.ExactSample` | src/pages/AddExpense.tsx:135-150 | boxes 50 and 50 against 101 raise the mismatch error quoting 100 and 101 |
| `Numbers.DecimalInputIff` | src/pages/AddExpense.tsx:105 | the pattern accepts exactly the strings of digits and at most one '.' |
| `Numbers.AcceptEdit` | src/pages/AddExpense.tsx:103-119 | an edit made of digits and at most one '.' replaces the stored text; any other edit leaves it unchanged |
| `Numbers.ParseDecimalInput` | src/pages/AddExpense.tsx:113-122 | accepted text parses to a non-negative number, except "" and ".", which parse to NaN |
| `Splits.Toggle` | src/pages/AddExpense.tsx:85-101 | toggling adds the id iff it was absent (appended at the end), removes every occurrence iff it was present, leaves other ids' membership alone and keeps a list duplicate-free |
| `Splits.ToggleTwice` | src/pages/AddExpense.tsx:85-92 | toggling an absent id twice restores the list exactly |
| `Splits.ToggleTwiceListed` | src/pages/AddExpense.tsx:85-92 | toggling a present id twice moves it to the end |
| `Splits.DotSuppressesMismatch` | src/pages/AddExpense.tsx:139-147 | as written, an `exact` box of "." (accepted by the filter) shows "NaN" and suppresses the mismatch error |
| `Splits.Flag` | src/pages/AddExpense.tsx:139-147 | corrected check: the shares are untouched; with every box readable the outcome is unchanged, otherwise the error names a participant whose box is unreadable |
| `Splits.CheckedSplits` | src/pages/AddExpense.tsx:121-196 | corrected `calculateSplits`: the same share table as written; every error raised as written is still raised; any other error names a participant |
| `Splits.CheckedExactReconciles` | src/pages/AddExpense.tsx:135-150 | corrected `exact`: no error iff every box is a number and the boxes add up to the amount within 0.01 |
| `Splits.CheckedPercentageReconciles` | src/pages/AddExpense.tsx:152-168 | corrected `percentage`: no error iff every box is a number and the percentages add up to 100 within 0.01 |
| `Splits.CheckedSharesReconciles` | src/pages/AddExpense.tsx:170-190 | corrected `shares`: no error iff every weight is a number and the weights do not total 0, and then every share is a number |
| `Splits.DotFlagged` | src/pages/AddExpense.tsx:139-147 | the corrected check reports the "." box of the example |
| `Splits.Submit` | src/pages/AddExpense.tsx:198-225 | the title/amount, participant and payer checks fire in order and exactly on their conditions; past them the split's error blocks success and is reported; the success outcome carries the computed shares |
| `Splits.SubmitExpense` | src/pages/AddExpense.tsx:198-225 | as written: the submission succeeds exactly when the form is complete and `calculateSplits` raised no error, and the success outcome carries that split's shares |
| `Splits.DotSubmitted` | src/pages/AddExpense.tsx:139-225 | as written, the handler would add the "." example with a "NaN" share although its boxes do not add up to the amount |
| `Splits.SubmitExpenseChecked` | src/pages/AddExpense.tsx:198-225 | corrected: the handler would add the expense exactly when the form is complete and the corrected split raised no error |
| `Splits.SubmittedExactReconciles` | src/pages/AddExpense.tsx:135-225 | corrected: an `exact` expense the handler would add, with a readable non-zero amount, has numeric boxes adding up to the amount within 0.01 |
| `Model.GetUserById` | src/lib/data.ts:238-240 | the first user with the id, and none exactly when no user has it |
| `Model.GetGroupById` | src/lib/data.ts:242-244 | the first group with the id, and none exactly when no group has it |
| `Model.SymbolIn` | src/lib/data.ts:327-329 | the first currency with the code gives its symbol; no match, or an empty symbol, gives "$"; the result is never empty |
| `Model.FirstSymbol` | src/lib/data.ts:327-329 | a currency whose code no earlier entry has gives its own non-empty symbol |
| `Model.GetCurrencySymbol` | src/lib/data.ts:327-329 | the first listed currency with the code gives its own symbol; a code no currency has gives "$" |
| `Model.SampleCurrencySymbols` | src/lib/data.ts:222-234 | USD shows "$" and INR shows "₹" |
| `Model.GetUserGroups` | src/lib/data.ts:246-248 | exactly the groups listing the user as a member |
| `Model.GetGroupExpenses` | src/lib/data.ts:250-252 | exactly the expenses filed under the group |
| `Model.ListHelpersPreserveOrder` | src/lib/data.ts:246-252 | both helpers commute with concatenation, so they keep the original order |
| `Model.GetRecentExpenses` | src/lib/data.ts:254-258 | newest `createdAt` first, drawn from the input, min(limit, count) long, with nothing newer left out |
| `Model.SampleUserLookups` | src/lib/data.ts:96-121 | "user2" finds Alice Johnson and "user9" finds no one |
| `Model.SampleListHelpers` | src/lib/data.ts:122-196 | user4 belongs to the apartment group only; the trip group holds exp1 and exp3 |
| `Records.AddTo` | src/lib/data.ts:282 | `r[k] = (r[k] \|\| 0) + v` adds v under k alone, appends a new key to the key order, and keeps the table well formed |
| `Records.TotalAddTo` | src/pages/Analytics.tsx:23 | adding v under any key, new or already present, raises the sum of `Object.values` by exactly v |
| `Balances.ParticipantOf` | src/lib/data.ts:264 | the user's participant entry, none exactly when they do not take part |
| `Balances.PaidBy` | src/lib/data.ts:268 | the amount of the user's first payer entry, 0 when they did not pay |
| `Balances.ShareOfFirst` | src/lib/data.ts:290 | the share of the user's first participant entry, 0 when no entry is theirs |
| `Balances.Attribution` | src/lib/data.ts:281 | `Math.min(cap, net * share / rest)`: never above the cap, the cap when rest is 0, otherwise one of the two and at most the proportional amount |
| `Balances.ApplyExpense` | src/lib/data.ts:263-301 | one expense changes at most one of `owes` and `owedBy` and keeps both well formed |
| `Balances.CalculateBalances` | src/lib/data.ts:260-304 | `owedBy[k]` is the sum over the expenses of what each attributes to k as owing the target, `owes[k]` the sum of what each attributes to the target as owing k, and both tables are well formed |
| `Balances.CreditOthersPerKey` | src/lib/data.ts:273-285 | each key of `owedBy` gains the sum of the credits of the underpaying participant entries for it, and becomes a key exactly when one exists |
| `Balances.DebitPayersPerKey` | src/lib/data.ts:288-299 | each key of `owes` gains the sum of the debits of the overpaying payer entries for it, and becomes a key exactly when one exists |
| `Balances.ApplyExpensePerKey` | src/lib/data.ts:263-301 | one expense adds its credit and debit sums for every key, and introduces exactly the keys it credits or debits |
| `Balances.CalculateBalancesPerKey` | src/lib/data.ts:260-304 | `owedBy[k]` and `owes[k]` are the sums over the expenses of what each attributes to k, and k is a key exactly when some expense attributes to it |
| `Balances.TargetNeverKey` | src/lib/data.ts:271-299 | the target is never a key of its own balance |
| `Balances.NonParticipantIgnored` | src/lib/data.ts:264-265 | an expense the target takes no part in changes nothing |
| `Balances.ZeroNetIgnored` | src/lib/data.ts:267-300 | a target who paid exactly their share changes neither table |
| `Balances.TotalsAppend` | src/lib/data.ts:263-301 | per-key totals are additive over concatenated expense lists |
| `Balances.CreditBound` | src/lib/data.ts:279-282 | an underpaying participant is charged at most what they underpaid, and at most the proportional amount |
| `Balances.CreditSumBound` | src/lib/data.ts:273-285 | with participants listed once, what k is charged on one expense is at most what k underpaid |
| `Balances.DebitBound` | src/lib/data.ts:293-296 | what the target owes one payer is at most the target's deficit, and at most the proportional amount |
| `Balances.SolePayerCredit` | src/lib/data.ts:271-283 | when the target alone paid the full amount, each other participant who paid nothing is charged exactly their share |
| `Balances.BalancesPositive` | src/lib/data.ts:271-300 | over expenses with non-negative payments and shares within the amount, every stored amount is positive |
| `Balances.DinnerSample` | src/lib/data.ts:144-161 | on the dinner paid by user1, user2 owes user1 40.17 and user3 owes 40.16, and user1 owes no one |
| `Balances.SampleBalances` | src/lib/data.ts:260-304 | over the three sample expenses user1 is owed 40.17 by user2 and 40.16 by user3, and owes 42.63 to user4 and 15 to user2 |
| `Balances.AttributionFallsShort` | src/lib/data.ts:286-299 | with payers of 60 and 40 and shares 50/25/25, the target's deficit of 50 is attributed as 70/3 and 10 only |
| `Balances.CategoryOf` | src/lib/data.ts:314 | the category is the note's text before the first space, or "Other" when there is no note or that text is empty; it is never empty and holds no space |
| `Balances.CategoryTotals` | src/lib/data.ts:306-319 | each category holds the target's shares of the expenses in it, and the categories together hold all of the target's shares |
| `Balances.CategoryKeys` | src/lib/data.ts:306-319 | a category is listed exactly when the target takes part in some expense filed under it, and any other category reads as 0 |
| `BalanceView.NetBalanceOfExpenses` | src/pages/Balances.tsx:35-39 | the net against k is what the expenses attribute to k as owing the target minus what they attribute to the target as owing k |
| `BalanceView.NetAgainstSelf` | src/pages/Balances.tsx:35-39 | the net against the target itself is 0 |
| `BalanceView.AllBalanceUsers` | src/pages/Balances.tsx:42-45 | a duplicate-free list of exactly the keys of either table |
| `BalanceView.AllBalanceUsersOrder` | src/pages/Balances.tsx:42-45 | the `owedBy` keys in order, then the `owes` keys not already listed, in order |
| `BalanceView.CounterpartsOfExpenses` | src/pages/Balances.tsx:42-45 | k is listed iff some expense attributes an amount between k and the target; the target is never listed |
| `BalanceView.Overview` | src/pages/Balances.tsx:199-218 | hidden iff the user is unknown or the net is under a cent; "owes you" iff the net is at least 0.01, "you owe" iff at most −0.01, with the absolute net |
| `BalanceView.Individual` | src/pages/Balances.tsx:247-275 | omitted iff the user is unknown or both amounts are exactly 0; otherwise each positive amount is shown |
| `BalanceView.IndividualShowsEveryCounterpart` | src/pages/Balances.tsx:247-251 | over well-formed expenses every listed, known counterpart gets a block with at least one amount |
| `BalanceView.OverviewImpliesIndividual` | src/pages/Balances.tsx:199-251 | a counterpart the overview shows is shown on the person-to-person tab as well |
| `BalanceView.ValidateSettlement` | src/pages/Balances.tsx:47-58 | refused for a missing user or amount, refused iff a filled-in amount reads as a number ≤ 0, otherwise recorded with its parsed amount, which is positive or NaN |
| `BalanceView.SettlementOfDigits` | src/pages/Balances.tsx:54-58 | a positive whole amount typed as digits is recorded with its value |
| `BalanceView.SettlementOfZero` | src/pages/Balances.tsx:54-58 | zero typed as digits is refused as invalid |
| `BalanceView.SettlementOfText` | src/pages/Balances.tsx:54-58 | an amount whose first character is a visible ASCII character other than a digit, point, sign or "I" reads as NaN and is recorded; the handler's code allows this, but the `type="number"` box (lines 114-120) hands the handler "" for such text, so it arises only when the handler is called directly |
| `BalanceView.RecentSettlements` | src/pages/Balances.tsx:68-73 | only settlements the user sent or received, each at most as often as in the input, newest first, at most five, all of them when fewer, and none newer left out |
| `BalanceView.RecentSettlementsAsWritten` | src/pages/Balances.tsx:68-73 | as written, filtering on the undeclared `fromUser` and `toUser` leaves nothing, so the list is empty for every input |
| `BalanceView.SampleNetBalances` | src/pages/Balances.tsx:35-39 | on the sample data user2 owes user1 a net 25.17 and user3 40.16, and user1 owes user4 42.63 |
| `BalanceView.SampleOverview` | src/pages/Balances.tsx:199-218 | the overview shows user2 "owes you 25.17" and user4 "you owe 42.63"; user2's block shows 40.17 and 15 |
| `BalanceView.SampleRecentSettlements` | src/pages/Balances.tsx:68-73 | both sample settlements involve user1, and the later one is listed first |

## Left out

- React state, rendering, effects, `toast` and `navigate`. The model computes the split and its error once, within the submit call (`Splits.SubmitExpense`). The error held before the call survives only where `calculateSplits` returns early.
- The render loop of the expense form. The page calls `calculateSplits()` while rendering (src/pages/AddExpense.tsx:227), and past the early return that call always sets the split error state (line 125). A state update made during a component's own render makes React render it again, so the page would stop with React's "Too many re-renders" error. The participants start as the current user (line 41), so this happens as soon as the amount reads as a non-zero number. The `Splits.Submit*` members model the code of `handleSubmit` (lines 198-225). The running page reaches that code only when `calculateSplits` returns early. This reading of React's rule was not executed.
- The effect that pre-fills the custom boxes (src/pages/AddExpense.tsx:74-83). Outside `equal`, it writes `customSplits[id] || '0'` into every participant's box. So in the running form a missing or cleared box soon holds "0", even under `shares`, whose own fallback is "1". The model reads the boxes as they are when `calculateSplits` runs.
- `localStorage`: the current user, their name and their currency. The current user is a parameter.
- `formatCurrency`, `toLocaleDateString` and the rest of the text formatting. Only the numbers displayed are modelled.
- Binary floating point. Amounts are exact reals, so `toFixed(2)` is not affected by representation error.
- Parts of `parseFloat`: leading whitespace, exponents and "Infinity". The decimal-input filter rules them out for the amount and split boxes.
- Settlement exponents: the settlement amount box (`type="number"`, src/pages/Balances.tsx:114-120) can also hold an exponent form, which the model does not parse.
- `Balances.Attribution`: at a zero denominator it takes the cap for every share. JavaScript does the same for a positive share. A zero share would give `0/0`, so NaN, and a negative share would give −∞. Neither can arise over well-formed expenses.
- Settlement field names: `getRecentSettlements` and the settlement list read `fromUser`, `toUser` and `createdAt` (src/pages/Balances.tsx:70-71, 341-343). `Settlement` declares `fromUserId`, `toUserId` and `date`. The model uses the declared fields, as intended, and logs the as-written behaviour under "## Findings".
- `Records.AddTo`: keys are kept in plain insertion order. A JavaScript object lists integer-like keys ("2", "10") first, in numeric order. Names an object inherits, such as "constructor" or "toString", make `r[k] || 0` a function, and `+` then builds a string. User ids and note categories of that form are not modelled.
- `BalanceView.AllBalanceUsersOrder`: it inherits the same insertion-order assumption from `Object.keys`, so integer-like user ids are not placed first.
- Sort stability: `getRecentExpenses` and `getRecentSettlements` are modelled as pure descending sorts. The in-place mutation of the sample array is not modelled. Neither is the relative order of entries with equal timestamps, on which the contracts make no claim.
- Group creation, login, settings, the theme, the layout, and the charts and lists of the analytics page and the dashboard. These are forms or displays with no logic of their own. The totals those two pages show are `Object.values(...)` sums, which `Records.Total` and `Records.TotalAddTo` model.

## Findings

| source | as written | input that shows it | evidently intended | confidence | as-written member | corrected member |
|---|---|---|---|---|---|---|
| src/pages/AddExpense.tsx:139-147 | the input filter accepts "."; `parseFloat(".")` is NaN, so the exact total is NaN and `Math.abs(NaN - amount) > 0.01` is false, so no error is raised (the same holds for `percentage`, and for `shares`, whose zero check also fails) | amount "100", `exact`, boxes u1 = ".", u2 = "5": shares u1 "NaN", u2 "5.00", no error | an unreadable box is reported and the handler does not accept the expense | not executed | `Splits.DotSuppressesMismatch`, `Splits.DotSubmitted` | `Splits.CheckedExactReconciles`, `Splits.SubmittedExactReconciles` |
| src/pages/Balances.tsx:70-71 | `getRecentSettlements` filters on `s.fromUser` and `s.toUser` and sorts on `s.createdAt`, none of which `Settlement` declares (src/lib/data.ts:45-54); each read is `undefined`, which never equals the user id | any settlement list, e.g. the two sample settlements with user1 as the current user: the list shown is empty | the settlements the user sent or received, read from `fromUserId` and `toUserId`, newest `date` first, at most five | not executed | `BalanceView.RecentSettlementsAsWritten` | `BalanceView.RecentSettlements` |
