# Economy ledger, chat metrics and time spans of a Discord bot, in Dafny

This project models the parts of the bot that hold state or compute values:

- the **economy cog**: one account document per user (`cash`, `bank`, `debt`, `inv`) and one
  shop document per item (`price`, `stock`, `role`). The commands covered are withdraw,
  deposit, balance, work, slut, crime, get-loan with its two delayed checks, repay-loan, buy,
  sell, givemoney, rob and leaderboard (module `Ledger`, and `Leaderboard` for the ranking);
- the **metrics cog**: per-author and per-channel message counters held in memory. An hourly
  task writes them as a snapshot document and clears them, and the `metrics [amt]` command
  queries a window of snapshots (module `Metrics`);
- the **snapshot queries** of the graphing helpers: total count, per-author and per-channel
  look-ups, hour and date labels, and the per-object series (module `Graphing`);
- **`get_timedelta`**, which turns "6h" or "3days" into a duration (module `TimeSpan`).

Supporting modules:

- `Outcomes`: `Option` and `Result`;
- `Text`: ASCII case mapping and decimal digits;
- `Calendar`: seconds to civil date and time, with a proved round trip;
- `Counts`: a Python dict of counts as an insertion-ordered list of distinct keys.

Each command is a pure function from the documents it reads (and the random draws it makes)
to the documents it writes, or to a refusal (`Reject`). A refusal writes nothing. That holds
whether the source replies with a message or the command dies on an exception (a missing
document, a `KeyError`). Random draws, the clock and the database contents are parameters.

Three behaviours of the code worth knowing:

- `metrics` returns snapshots in collection order; it does not sort them.
- withdraw and deposit accept a negative number.
- givemoney and rob write two documents one after the other, not as one unit. This matters
  when both parties are the same user (see Findings).

## Model

| member | source | states |
|---|---|---|
| Counts.Get | utils/graphing.py:26-31 | a dict look-up finds a value exactly when the key is present |
| Counts.GetFinds | utils/graphing.py:26-31 | the value found is one stored under the key, and with distinct keys it is the value stored there |
| Counts.Bump | cogs/metrics_alpha.py:36-37 | `d[k] += 1` on a defaultdict: the count at `k` is the old count (0 when absent) plus one, every other key reads as before, and the total grows by one |
| Counts.BumpKeepsShape | cogs/metrics_alpha.py:28-37 | bumping keeps the keys distinct and every count at least one |
| Counts.SumPositive | cogs/metrics_alpha.py:98 | with positive counts the total is at least the number of keys, and it is zero exactly when there are none |
| Counts.GetAtMostSum | utils/graphing.py:23-28 | with non-negative counts no single author's count exceeds the total |
| Calendar.DaysBetweenYearsClosedForm | cogs/metrics_alpha.py:74 | the days between two New Year's Days are 365 per year plus one per Gregorian leap year, as `datetime` counts them |
| Calendar.DateRangeIsYearOneTo9999 | cogs/metrics_alpha.py:74 | the instants a `datetime` holds run from 0001-01-01, 719162 days before 1970, up to 10000-01-01, 2932897 days after it |
| Calendar.ToDateTime | utils/graphing.py:44-48 | the civil fields `strftime` reads are a valid date and time that converts back to the same instant |
| Text.TwoDigits | utils/graphing.py:44-45 | the zero-padded `%02d` text of a number below 100 is two digits that read back as that number |
| Text.ShowRoundTrip | utils/timezone.py:14-15 | `int()` of the decimal text of a number gives the number back |
| Text.LowerIdempotent | utils/graphing.py:40-41 | lower-casing twice is lower-casing once |
| Graphing.ParseData | utils/graphing.py:53-56 | the record carries the document's timestamp and both count tables unchanged |
| Graphing.TotalCount | utils/graphing.py:23-24 | the total is the sum of the per-author counts: zero for an empty snapshot, and with non-negative counts non-negative and at least every author's count |
| Graphing.SumBoundsCounts | utils/graphing.py:23-28 | with no negative count the sum of a count table is non-negative and no single entry exceeds it |
| Graphing.GetPersonalCount | utils/graphing.py:26-28 | succeeds exactly when the author has an entry, returning that entry; otherwise fails with the author's id (a `KeyError`, not zero) |
| Graphing.GetChannelCount | utils/graphing.py:30-31 | the same for a channel |
| Graphing.CleanHoursRepr | utils/graphing.py:44-45 | two digits whose value is the hour of the day of the snapshot, below 24 |
| Graphing.CleanDateRepr | utils/graphing.py:47-48 | `dd/mm/`: slashes at positions 2 and 5, the day (1..31) and the month (1..12) of the snapshot before them |
| Graphing.SameDaySameDateLabel | utils/graphing.py:44-48 | snapshots of the same day share the date label, and share the hour label exactly when they fall in the same hour |
| Graphing.SelectorNamed | utils/graphing.py:38-40 | "channel" and "member", in any case, select the channel or the author table; any other name selects nothing |
| Graphing.UnitNamed | utils/graphing.py:39-41 | "hours" and "days", in any case, select the hour or the date label; any other name selects nothing |
| Graphing.CountFor | utils/graphing.py:38-40 | the selected table's count for the id, or the unknown-object error when the snapshot lacks it |
| Graphing.CountSeries | utils/graphing.py:40 | one count per snapshot, in order, each the id's entry in that snapshot; fails exactly when some snapshot lacks the id |
| Graphing.YValues | utils/graphing.py:38-40 | empty data gives an empty list without consulting the table; otherwise an unknown selector or a snapshot lacking the id is an error, and each y value is the id's count in that snapshot |
| Graphing.XValues | utils/graphing.py:39-41 | empty data gives an empty list; otherwise an unknown unit is an error, and each x value is the chosen label of that snapshot |
| Graphing.GetCountsFor | utils/graphing.py:33-42 | succeeds exactly when data is empty or both names are known and every snapshot has the id; the result maps only the id to equal-length x and y lists that agree pointwise with the snapshots |
| Graphing.SelectorsIgnoreCase | utils/graphing.py:40-41 | the result is the same whether the two names are given in any case or already lower-cased |
| Graphing.SameSelectorSameY | utils/graphing.py:40 | two selector names with the same lower-case form give the same y values |
| Graphing.SameUnitSameX | utils/graphing.py:41 | two unit names with the same lower-case form give the same x values |
| Metrics.Init | cogs/metrics_alpha.py:25-30 | a freshly loaded cog has empty caches, a zero count, no dump time, and satisfies the counter invariant |
| Metrics.OnMessage | cogs/metrics_alpha.py:32-38 | a bot's message changes nothing; any other message adds one to its author's count, its channel's count and the total, and leaves every other author and channel as it was |
| Metrics.OnMessageKeepsValid | cogs/metrics_alpha.py:32-38 | a message keeps the keys distinct, the counts positive and the total equal to the sum of each cache |
| Metrics.MetricsDump | cogs/metrics_alpha.py:93-104 | a snapshot of both caches stamped `now` is written exactly when either cache has a key; afterwards both caches and the count are empty, and the last dump time is `now` |
| Metrics.DumpWritesIffCounted | cogs/metrics_alpha.py:98-100 | under the counter invariant a snapshot is written exactly when a human message was counted since the last dump |
| Metrics.DumpedSnapshotReadsBack | cogs/metrics_alpha.py:98-100 | the written snapshot, parsed back, totals the cached message count and returns each cached author's and channel's count, failing for ids that were not cached |
| Metrics.ReplayKeepsCounters | cogs/metrics_alpha.py:32-104 | the counter invariant holds after any interleaving of messages and dumps |
| Metrics.CountIsHumanMessages | cogs/metrics_alpha.py:32-38 | between dumps the count grows by exactly the number of non-bot messages |
| Metrics.Matching | cogs/metrics_alpha.py:75 | the documents no older than the bound, each of them and only them |
| Metrics.MatchingConcat | cogs/metrics_alpha.py:75 | the filter keeps collection order: the matches of two runs of documents are the matches of the first followed by those of the second |
| Metrics.TakeMatching | cogs/metrics_alpha.py:75 | with a length limit, the first `min(limit, matches)` matching documents; without one, all of them |
| Metrics.StartOfDay | cogs/metrics_alpha.py:77-78 | `now` minus its hours and minutes: the same day, at 00:00 plus the current seconds |
| Metrics.MetricsWindow | cogs/metrics_alpha.py:72-79 | with `amt`, a look-back that `timedelta` or `datetime` cannot hold is an overflow error, checked first; then a negative `amt` is refused; otherwise at most `amt` documents from the last `amt` hours, a prefix of all such documents; without `amt`, every document since the start of the day |
| Metrics.ExampleLookbackTooFar | cogs/metrics_alpha.py:73-75 | on 1 January 2021 `metrics 20000000` reaches before year 1 and overflows, while `metrics 24` succeeds |
| TimeSpan.Split | utils/timezone.py:8-13 | the number part holds only digits and the unit part none |
| TimeSpan.SplitPartitions | utils/timezone.py:8-13 | the two parts hold exactly the characters of the input, and the number part is empty exactly when the input has no digit |
| TimeSpan.SplitConcat | utils/timezone.py:9-13 | splitting a concatenation concatenates the splits, so the digits keep their order wherever they are |
| TimeSpan.Span | utils/timezone.py:17-20 | a duration is built exactly when its days, rounded down, are within 999999999 either way; otherwise it is the overflow error |
| TimeSpan.GetTimedelta | utils/timezone.py:6-22 | succeeds exactly when there is a digit, the lower-cased unit starts with "h" or "d", and the span fits in a `timedelta`; no digit is the `int("")` error; with a digit, an "h" or "d" unit fails exactly when the span is too long, with the overflow error, and any other unit is refused naming that unit; the value is the number times 3600 for hours, times 86400 otherwise |
| TimeSpan.SplitNumberThenUnit | utils/timezone.py:8-13 | "digits then unit" splits back into exactly those digits and that unit |
| TimeSpan.NumberThenHours | utils/timezone.py:17-18 | a number followed by a unit starting with h or H is that many hours in seconds below 24 * 10^9 hours, and the overflow error from there on |
| TimeSpan.NumberThenDays | utils/timezone.py:19-20 | a number followed by a unit starting with d or D is that many days in seconds up to 999999999 days, and the overflow error beyond |
| TimeSpan.NumberThenOtherUnit | utils/timezone.py:21-22 | a number followed by any other unit, the empty one included, is refused with that unit |
| TimeSpan.ExampleHours | utils/timezone.py:6-18 | "6h" and "6Hours" are 21600 seconds |
| TimeSpan.ExampleDays | utils/timezone.py:6-20 | "3d" is 259200 seconds |
| TimeSpan.ExampleRejected | utils/timezone.py:6-22 | "5x" and "5" are refused for their unit, "h" for having no number |
| TimeSpan.ExampleDaysTooLong | utils/timezone.py:19-20 | "1000000000d" overflows |
| TimeSpan.ExampleLongestDays | utils/timezone.py:19-20 | "999999999d" is the longest span of days |
| TimeSpan.ExampleHoursTooLong | utils/timezone.py:17-18 | "24000000000h" is 10^9 days and overflows |
| TimeSpan.ExampleScatteredDigits | utils/timezone.py:8-18 | "1h2" is twelve hours: digits after the unit join the number |
| Ledger.PercentOf | cogs/economy.py:162 | `int(x * p / 100)`: the exact percentage truncated toward zero, bracketed within one unit for either sign of `x` |
| Ledger.RunCommand | cogs/economy.py:40-41 | a command on a missing account fails; otherwise it succeeds exactly when the one-account step does, writes the step's result and leaves every other account alone |
| Ledger.AddCash | cogs/economy.py:89 | `$inc` on cash: the user's cash moves by `delta`, and nothing happens when no document matches |
| Ledger.Withdraw | cogs/economy.py:36-51 | a number moves from bank to cash exactly when the bank covers it; "all" in any case empties the bank into cash; other text changes nothing; cash plus bank, debt and inventory are kept |
| Ledger.Deposit | cogs/economy.py:53-69 | the mirror image: a number moves from cash to bank when the cash covers it; "all" moves all cash |
| Ledger.WithdrawThenDeposit | cogs/economy.py:36-63 | depositing what was just withdrawn restores the account when cash was not negative |
| Ledger.WithdrawDepositScenario | cogs/economy.py:36-69 | cash 100 and bank 50: withdraw 30 gives 130 and 20, then deposit "ALL" gives 0 and 150 |
| Ledger.Balance | cogs/economy.py:71-83 | the four shown figures are cash, bank, the negated debt and their sum, for an existing user only |
| Ledger.BalanceNetWorthKept | cogs/economy.py:36-83 | the net worth `bal` shows is the same before and after a withdraw, a deposit or a repayment, and every other user's statement is unchanged |
| Ledger.TransfersKeepNetWorth | cogs/economy.py:36-76 | withdraw and deposit never change the net worth `cash + bank - debt` |
| Ledger.Work | cogs/economy.py:85-91 | the author's cash rises by exactly the amount drawn, between 50 and 200, and nothing else changes |
| Ledger.WorkShowsInBalance | cogs/economy.py:71-91 | after `work`, `bal` shows the cash and the net worth up by the amount earned, and every other statement unchanged |
| Ledger.Wager | cogs/economy.py:98-130 | a roll within the winning set adds the stake, any other roll subtracts it, with no floor |
| Ledger.WagerShowsInBalance | cogs/economy.py:71-130 | after a wager, `bal` shows the net worth moved by exactly the stake, up on a win and down otherwise, and every other statement unchanged |
| Ledger.Slut | cogs/economy.py:98-111 | rolls 1..6 add the drawn stake to cash and rolls 7..10 take it away, a stake of 60..200 either way; nothing else changes |
| Ledger.Crime | cogs/economy.py:118-130 | rolls 1..4 add the drawn stake of 150..400 to cash, rolls 5..10 take away a stake of 150..250; nothing else changes |
| Ledger.GetLoan | cogs/economy.py:155-166 | granted exactly when the loan is below twice the bank balance and no debt is owed; the bank gains the loan and the debt becomes the loan plus 5%, at most 105% of it |
| Ledger.RepayLoan | cogs/economy.py:190-204 | no debt is refused; a debt the cash cannot cover is refused; otherwise the debt is paid from cash and cleared |
| Ledger.RepayKeepsNetWorth | cogs/economy.py:190-197 | repaying leaves the net worth unchanged |
| Ledger.LoanFollowUp | cogs/economy.py:168-185 | a reminder is sent exactly when debt remains at 18 hours; the default penalty applies exactly when debt also remains at 24 hours, clearing the debt and taking the loan plus 10% from cash |
| Ledger.DefaultCostsMoreThanRepaying | cogs/economy.py:159-185 | for an untouched positive loan, defaulting costs 10% of it in net worth against the 5% fee, never less |
| Ledger.BuyEntry | cogs/economy.py:225-255 | a purchase succeeds exactly when the item is in the shop, the cash covers `n` times the price and a finite stock holds `n`; it charges that cost, adds `n` to the holding, lowers only a finite stock by `n`, and leaves every other shop item alone |
| Ledger.SellEntryAsWritten | cogs/economy.py:257-267 | as written: a held item known to the shop is sold for `n` times its price with no check on the count held |
| Ledger.SellOversells | cogs/economy.py:262-264 | as written: selling more than is held is paid in full and leaves a negative count |
| Ledger.SellEntry | cogs/economy.py:257-267 | corrected: selling more than is held is refused, so a sale never leaves a negative count; otherwise it is the source's sale |
| Ledger.BuyThenSellEntry | cogs/economy.py:225-267 | selling back what was just bought, at the unchanged price, restores the cash and the count of the item |
| Ledger.BuyThenSell | cogs/economy.py:225-267 | the same for the item argument, looked up under `item.lower().capitalize()` and `item.lower()` |
| Ledger.ShopIgnoresCase | cogs/economy.py:227-237 | an item name and its lower-cased form reach the same shop document and inventory entry |
| Ledger.HeistToolsNames | cogs/economy.py:227-237 | buying "heist tools" reads the shop document "Heist tools" and fills the inventory key that rob checks |
| Ledger.GiveMoneyAsWritten | cogs/economy.py:269-289 | as written: a negative amount, a missing sender, a short sender and a missing receiver are refused in that order; between two users the cash moves exactly |
| Ledger.SelfTransferMintsCash | cogs/economy.py:281-285 | as written: giving money to oneself adds the amount to one's own cash |
| Ledger.GiveMoney | cogs/economy.py:277-288 | corrected: the same refusals and the same transfer between two users, and a transfer to oneself changes nothing |
| Ledger.GiveMoneyKeepsCash | cogs/economy.py:281-285 | a transfer neither creates nor destroys cash |
| Ledger.Rob | cogs/economy.py:291-332 | needs at least one set of heist tools and a victim with more than 10 cash; uses up one set; a success moves `int(cash * p / 100)` from victim to robber, a failure fines the robber only; the robber's bank and debt never change; robbing oneself successfully loses the share and keeps the tools |
| Ledger.RobShare | cogs/economy.py:311-323 | a successful robbery of another user takes between half and four fifths of the victim's cash, leaving the victim with some |
| Leaderboard.Swap | cogs/economy.py:143-145 | exchanging two neighbours keeps the same entries |
| Leaderboard.Reverse | cogs/economy.py:147 | `list.reverse()`: the same entries, the i-th from the end at position i |
| Leaderboard.ReverseOfAscending | cogs/economy.py:147 | an ascending list reversed is descending |
| Leaderboard.BubbleSort | cogs/economy.py:140-145 | the nested swap loops yield the same entries in ascending order of bank plus cash |
| Leaderboard.Rank | cogs/economy.py:137-147 | the leaderboard lists every account once, richest first |
| Leaderboard.RankedFirstIsRichest | cogs/economy.py:137-147 | the first-ranked account is at least as rich as every account in the collection |

`Ledger.Buy` takes the rest of the message as the item name. `Ledger.Sell` and
`Ledger.SellAsWritten` take the item argument, which is one word or a quoted phrase. All three
call the entries above with the shop name `item.lower().capitalize()` and the inventory key
`item.lower()`.

## Left out

- Discord I/O is not modelled: embeds, replies, direct messages, reactions, role granting and
  the "typing" indicator.
- Member name resolution (`get_user_dict`, the matching at economy.py lines 274-275 and
  297-309) is left out. Receivers and victims are given as user ids.
- Command cooldowns and `reset_cooldown` are rate limits outside the documents, so they are
  left out.
- Random draws (work, slut, crime, rob) are parameters within the source's ranges.
- The two `asyncio.sleep` delays of get-loan are left out. `Ledger.LoanFollowUp` takes the
  account as read back at each check, so whatever happened in between is covered, but the
  timing is not.
- Ledger.PercentOf: computes `int(x * 0.05)`, `int(x * 0.1)` and `int(x * (p / 100))` on
  exact rationals; float rounding is not modelled. The loan fees agree for ordinary values.
  The robbery share does not always: `int(100 * (57 / 100))` is 56, because the product is
  56.99999999999999, while `PercentOf(100, 57)` is 57 (50 cash at 58% is another case).
- Ledger.Rob: the share it moves can be one more than the float computation gives, for the
  reason above.
- Parsing command arguments with `int(...)` is left out. Withdraw and deposit receive either
  the parsed number or the text that failed to parse.
- Case mapping and `isdigit` are ASCII only. Python's Unicode case rules and Unicode digits
  are not modelled.
- `Ledger.BuyEntry` and `Ledger.SellEntry` take the author's account document. A missing
  document, which makes the source crash before writing, is the caller's `UnknownUser` case,
  as in `Ledger.RunCommand`.
- The inventory, shop, `use-item` and `bal` (other user) displays are left out, since they
  only render documents. `use-item` (economy.py 340-354) calls `.keys()` on each inventory key
  string. It therefore fails with `AttributeError` as soon as the inventory is non-empty. With
  an empty inventory it rewrites the unchanged document. Its only other effect is granting a
  Discord role, so it changes no modelled state.
- The leaderboard's display numbering (`list.index`) and member look-ups are left out.
- Leaderboard.Rank: does not state the order of accounts with equal balances. The bubble sort
  never swaps equals, so after the reversal ties appear in reverse collection order.
- `start-metrics_` is left out: it copies a collection and starts the loop.
- `stop-metrics_` is left out: it deletes the test collection.
- The `metrics hours_` status reply and the empty `metrics_clear` loop are left out.
- Graph rendering (`graph_hourly_message_count`, matplotlib, the file embed) is not modelled.
  That includes its `data[0]` access on an empty window.
- The clock is a parameter. `metrics` reads it up to three times; the model reads it once.
- Time is seconds since 1970-01-01 in the bot's local time (Asia/Dubai, a fixed +4 hours with
  no daylight saving). Time-zone conversion itself is not modelled.
- Metrics.MetricsDump: is one atomic step. In the code, `await insert_one(...)` yields before
  the caches are reset. A message counted during that wait either reaches the snapshot or not,
  depending on when the driver encodes the document, and is then wiped by the reset, so it can
  be lost from every snapshot. The model has no step between the write and the reset.
- `to_list(length=0)` is taken to return no documents.

## Findings

| source | as written | input that shows it | evidently intended | confidence | as-written member | corrected member |
|---|---|---|---|---|---|---|
| cogs/economy.py:262-264 | `sell` lowers the held count by `n` and pays `n * price` without checking that `n` items are held | holding 1 "heist tools" (shop price 100), `sell 5 "heist tools"`: cash +500, count -4 | refuse a sale of more than is held, leaving the documents unchanged | high; not executed | Ledger.SellOversells | Ledger.SellEntry |
| cogs/economy.py:281-285 | `givemoney` reads both documents first and writes the receiver's last, so with receiver = sender the debit is overwritten | a user with 100 cash runs `givemoney` to themselves for 50: cash becomes 150 | a transfer to oneself leaves the cash unchanged | medium; not executed | Ledger.SelfTransferMintsCash | Ledger.GiveMoney |
