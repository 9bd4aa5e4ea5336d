# friend-tech-automation, modelled in Dafny

This project models the data logic of the `fta` command-line tool. The tool
automates trading of friend.tech keys on Base. The model covers these parts:

- **The proportional-sell rule.** `checkHowManyToSell` decides how many of my
  keys of a trader to sell when that trader sells theirs (module `SellRule`).
- **The sale watcher.** This is the decision part of the `watch-sells` trade
  handler and its Telegram sale message (module `WatchSells`).
- **The MarkdownV2 escaper** (module `Markdown`) and **the hash shortener**
  (module `Hash`).
- **The order commands `buy`, `sell` and `nuke`** (modules `BuyCommand`,
  `SellCommand`, `Nuke`):
  - CSV order parsing, with duplicate-address detection through a counting
    map (module `OrderCsv`);
  - the skip rules and the key tallies;
  - the transaction loop, which all three share (module `OrderLoop`);
  - `nuke`'s confirmation gate.
- **The holdings filter** `getUserTokenHoldings` (module `BuyHelpers`).
- **The keychain credential store.** It is a class whose field holds the last
  saved store (module `Credentials`).
- **The transaction report.** It merges fee income with the account's own
  trades (module `Report`).
- **The `list-keys` inactive-holders list** (module `ListKeys`) and **the
  `recent-users` list** (module `RecentUsers`).

`Common` holds the shared building blocks:

- `Option`.
- `Numeric`: a JavaScript number, restricted to integers and `NaN`.
- Address comparison, which ignores ASCII case.
- `OrderedMap`, an insertion-ordered map that stands for JavaScript's `Map`.
- `SortBy`, a stable sort standing for `Array.prototype.sort`.
- `CsvLine`.

Everything the tool fetches becomes a parameter. This covers balances, users,
Basescan responses, the clock, whether each transaction fails, and which
awaited calls of the sale watcher throw. Each
command's transaction loop is described by the trace of steps it takes:
which orders it skips, which it sends, and where it pauses.

## Model

| member | source | states |
|---|---|---|
| SellRule.CheckHowManyToSell | packages/cli/src/helpers/checkHowManyToSell.ts:1-22 | The result never exceeds my holding. It is 0 when the trader sold nothing or I own nothing. A full exit by the trader sells everything. A partial exit leaves me at least one key. |
| SellRule.CeilDiv | packages/cli/src/helpers/checkHowManyToSell.ts:13 | The result is the least q with a <= q*b: the exact ceiling of a/b. |
| SellRule.CeilDivLeast | packages/cli/src/helpers/checkHowManyToSell.ts:13 | Any q with a <= q*b is at least the ceiling, so the ceiling is the least such value. |
| SellRule.ProportionalShare | packages/cli/src/helpers/checkHowManyToSell.ts:11-13 | The share is at most my holding. It covers the sold fraction of my holding, and is the least number that does. |
| SellRule.PartialExitIsCappedShare | packages/cli/src/helpers/checkHowManyToSell.ts:11-21 | On a partial exit, the result is c, or c−1 when c is my whole holding; c is the ceiling of sold·iOwn/(owns+sold). |
| SellRule.PartialExitSellsAtLeastShare | packages/cli/src/helpers/checkHowManyToSell.ts:13-21 | On a partial exit I sell at least the trader's fraction of my keys, unless that would sell all but one, in which case I sell all but one. |
| SellRule.PartialExitSellsSomething | packages/cli/src/helpers/checkHowManyToSell.ts:13-19 | On a partial exit with something sold, I sell at least one key when I own two or more, and none when I own exactly one. |
| SellRule.MonotoneInTraderSold | packages/cli/src/helpers/checkHowManyToSell.ts:1-22 | When the trader sells more, with the same remaining holding, I never sell fewer keys. |
| SellRule.ShareMonotone | packages/cli/src/helpers/checkHowManyToSell.ts:11-13 | The proportional share grows with the amount sold. |
| SellRule.ShareValue | packages/cli/src/helpers/checkHowManyToSell.ts:13 | The share equals the integer ceiling division (sold·iOwn + before − 1) / before. |
| SellRule.TestTableEdgeRows | packages/cli/src/helpers/__tests__/checkHowManyToSell.test.ts:5-9 | The four rows of the test table where I own nothing, the trader sold nothing, or the trader exited, called in the order (iOwn, traderOwns, traderSold). |
| SellRule.TestTablePartialRows | packages/cli/src/helpers/__tests__/checkHowManyToSell.test.ts:6-15 | The seven partial-exit rows of the test table. |
| WatchSells.SoldMessageFor | packages/cli/src/commands/watch-sells.tsx:175-181 | The "still own" wording is chosen exactly when keys remain after the sale, and then it reports that number. |
| WatchSells.NotificationFor | packages/cli/src/commands/watch-sells.tsx:135-151 | The Telegram message carries the escaped Twitter name, or the escaped unknown-user mark when there is no profile, and the escaped room URL of the trader. It carries the sold amount and both holdings, and "trying to sell n keys" iff n is not 0. |
| WatchSells.Accepts | packages/cli/src/commands/watch-sells.tsx:80-91 | An event gets past the filters and the throttle iff it is a sale, on the watched subject or in dev mode, while the throttle is open. A buy is never accepted. |
| WatchSells.React | packages/cli/src/commands/watch-sells.tsx:78-125 | A sale event that passes the subject filter ends in a failed balance read iff one of the two `sharesBalance` calls throws. Otherwise the handler reacts exactly to the events it accepts: a sale on the watched subject (any subject in dev mode) while not throttled. |
| WatchSells.BuysIgnored | packages/cli/src/commands/watch-sells.tsx:80 | A buy event never leads to a notification or a sale. |
| WatchSells.SaleFollowsRule | packages/cli/src/commands/watch-sells.tsx:102-125 | An accepted event with both balances read is notified iff `sendMessage` does not throw. A sale of exactly `checkHowManyToSell(iOwn, traderHold, shareAmount)` keys of the trader follows iff the notification went through and that amount is positive. The sold message follows iff `sellShares` does not throw. The notification says "trying to sell" iff the amount is positive. |
| WatchSells.NotifyFailureBlocksSale | packages/cli/src/commands/watch-sells.tsx:104-125 | When the notification throws, the `catch` ends the handler and nothing is sold, whatever the rule asks for. |
| WatchSells.SaleLeavesRemainder | packages/cli/src/commands/watch-sells.tsx:113-181 | A sale never exceeds my holding. When `sellShares` succeeds, the sold message is composed; it says "still own" iff keys remain, and the two numbers add up to my holding. It always says so when the trader still holds keys. |
| WatchSells.SellWatcher.OnTrade | packages/cli/src/commands/watch-sells.tsx:77-100 | The handler's reaction is `React` with the throttle flag as it was. In dev mode the flag is cleared by every event it reacts to; a failed balance read leaves it as it was. |
| WatchSells.SellWatcher.ThrottleExpired | packages/cli/src/commands/watch-sells.tsx:97-99 | The timer re-opens the throttle. |
| Markdown.EscapeMarkdown | packages/cli/src/helpers/escapeMarkdown.ts:25-31 | The loop of `replaceAll` passes, one per special character with backslash first, yields the per-character escape of the text. |
| Markdown.ReplaceStep | packages/cli/src/helpers/escapeMarkdown.ts:26-28 | One `replaceAll` pass on text already escaped for earlier characters escapes its character too, because that character is not among the earlier ones and backslash came first. |
| Markdown.PassStep | packages/cli/src/helpers/escapeMarkdown.ts:25-31 | Each pass escapes its character on top of the earlier ones, since the list has no repeats and the backslash comes first. |
| Markdown.ReplaceAllConcat | packages/cli/src/helpers/escapeMarkdown.ts:27 | `replaceAll` of a single character distributes over concatenation. |
| Markdown.SpecialCharsDistinct | packages/cli/src/helpers/escapeMarkdown.ts:1-23 | The special-character list has no repeats. |
| Markdown.EscapeLength | packages/cli/src/helpers/escapeMarkdown.ts:26-28 | The escaped text is longer than the input by the number of special characters in it. |
| Markdown.EscapePlainText | packages/cli/src/helpers/escapeMarkdown.ts:25-31 | A text without special characters, the empty text included, is returned unchanged. |
| Markdown.EscapeNothing | packages/cli/src/helpers/escapeMarkdown.ts:25-31 | Before any pass, the text is as given. |
| Markdown.EscapeConcat | packages/cli/src/helpers/escapeMarkdown.ts:27 | Escaping works character by character, so the original characters keep their order. |
| Markdown.UnescapeEscape | packages/cli/src/helpers/escapeMarkdown.ts:27 | Removing the backslash before each escaped character recovers the input exactly. |
| Markdown.BackslashOrderMatters | packages/cli/src/helpers/escapeMarkdown.ts:1-28 | With backslash first, `_` becomes `\_`. Escaping backslash after `_` would escape the inserted backslash again. |
| Hash.ShortenHash | packages/helpers/src/shortenHash.ts:1-5 | Up to 10 characters are kept unchanged. A longer hash becomes its first 6 characters, `...`, then its last 4: exactly 13 characters. |
| Hash.ShortenHashIdempotent | packages/helpers/src/shortenHash.ts:2-4 | Shortening a shortened hash changes nothing. |
| Hash.ShortenHashLength | packages/helpers/src/shortenHash.ts:2-4 | The result has at most 13 characters, and it is shorter than the input exactly when the input is longer than 13. |
| OrderCsv.FirstOccurrences | packages/cli/src/commands/buy.tsx:593-611 | The counting map's keys hold each address once, and exactly the addresses of the input. |
| OrderCsv.CountMapCounts | packages/cli/src/commands/buy.tsx:593-611 | The counting map holds the addresses in first-occurrence order, each with its number of occurrences. |
| OrderCsv.CountMapNext | packages/cli/src/commands/buy.tsx:593-611 | One more address bumps its count, or enters the map with count 1. |
| OrderCsv.CollectDuplicates | packages/cli/src/commands/buy.tsx:613-617 | The loop over the counting map collects the addresses counted more than once, in map order. |
| OrderCsv.CountedTwiceMembers | packages/cli/src/commands/buy.tsx:613-617 | An address is collected iff its count exceeds 1. |
| OrderCsv.CountedTwiceDistinct | packages/cli/src/commands/buy.tsx:613-617 | Each address is collected at most once. |
| OrderCsv.DuplicatesExactly | packages/cli/src/commands/buy.tsx:593-617 | `duplicatedOrders` holds exactly the addresses that occur more than once, each listed once. |
| OrderCsv.NoDuplicatesIffDistinct | packages/cli/src/commands/buy.tsx:196-200 | `duplicatedOrders` is empty iff the addresses are all different. |
| BuyHelpers.GetUserTokenHoldings | packages/cli/src/helpers/buy.ts:25-44 | The loop builds the map of the qualifying holdings. |
| BuyHelpers.HoldingsAreQualified | packages/cli/src/helpers/buy.ts:32-41 | Every kept holding has a positive balance and is not the queried address. An address is kept iff some entry for it qualifies. |
| BuyHelpers.LastQualifyingEntryWins | packages/cli/src/helpers/buy.ts:36-39 | An address kept several times holds the balance and Twitter name of its last qualifying entry. |
| BuyCommand.FormatData | packages/cli/src/commands/buy.tsx:589-623 | There is one order per row, in row order, with index = position, the row's address and quantity, and nothing owned or fetched yet. `duplicatedOrders` is the duplicate list of the addresses. |
| BuyCommand.RowOrders | packages/cli/src/commands/buy.tsx:589-623 | There is one order per row, at the row's position, with its address and quantity, owning nothing and with no user fetched. |
| BuyCommand.RowOrdersNext | packages/cli/src/commands/buy.tsx:589-623 | One more row pushes its order at the end. |
| BuyCommand.ParseCsv | packages/cli/src/commands/buy.tsx:165-210 | Parsing succeeds iff the file has rows, both columns exist and the addresses are distinct. An empty file is reported as such. The duplicate error lists exactly the repeated addresses. |
| BuyCommand.GetSkipReason | packages/cli/src/commands/buy.tsx:625-644 | "Already own" comes first, then "could not get the price", then the price limit. "Unknown reason" is returned iff the order is not skipped. |
| BuyCommand.ShouldSkip | packages/cli/src/commands/buy.tsx:625-628 | An order goes ahead only when the key is not owned yet, the user was fetched and its price is within the limit. An owned key is always skipped. |
| BuyCommand.LoopOrders | packages/cli/src/commands/buy.tsx:285-292 | The loop sees each order with its address, quantity, index and whether `shouldSkip` holds. |
| BuyCommand.CountKeysToBuy | packages/cli/src/commands/buy.tsx:469-478 | The tally is the JavaScript sum of the quantities of the orders not skipped. |
| BuyCommand.StartBuys | packages/cli/src/commands/buy.tsx:285-326 | The buying loop takes exactly the step trace of the shared order loop, with the last index being the position of the last order. |
| BuyCommand.BuysExactlyTheUnskipped | packages/cli/src/commands/buy.tsx:285-326 | Exactly the orders not skipped are bought, in order and with their quantities, whichever transactions fail. |
| BuyCommand.BuyPauses | packages/cli/src/commands/buy.tsx:320-325 | With orders indexed by position, the loop pauses once after every bought order except the last order. |
| BuyCommand.CheckDelay | packages/cli/src/commands/buy.tsx:379-399 | A delay is accepted iff it is a number of at least 15 seconds, and `NaN` is reported as invalid. |
| SellCommand.DefaultQuantity | packages/cli/src/commands/sell.tsx:536 | A quantity of 0 or `NaN` becomes 1. Any other quantity is kept, so a quantity is never 0. |
| SellCommand.FormatData | packages/cli/src/commands/sell.tsx:519-553 | There is one order per row, in row order, with index = position, the address unchanged and the quantity defaulted. `duplicatedOrders` is the duplicate list of the addresses. |
| SellCommand.RowOrders | packages/cli/src/commands/sell.tsx:519-553 | There is one order per row, at the row's position, with its address and defaulted quantity, and nothing fetched. |
| SellCommand.RowOrdersNext | packages/cli/src/commands/sell.tsx:519-553 | One more row pushes its order at the end. |
| SellCommand.ParseCsv | packages/cli/src/commands/sell.tsx:145-186 | Parsing succeeds iff the file has rows, an address column and distinct addresses. The duplicate error lists exactly the repeated addresses. Parsed orders keep the addresses and have non-zero quantities. |
| SellCommand.PrepareKeepsOrders | packages/cli/src/commands/sell.tsx:203-233 | Preparing keeps each order's address, quantity and index. It records the fetched balance, and the fetched user when there is one. An order whose balance could not be fetched is left as it was. |
| SellCommand.Prepare | packages/cli/src/commands/sell.tsx:203-233 | Each order keeps its address, quantity and index, and takes the fetched balance when there is one. Some order then has a balance iff one had before or some balance was fetched. |
| SellCommand.PrepareSetsGuard | packages/cli/src/commands/sell.tsx:193-233 | After preparing, some order has a balance iff some balance was fetched. Every order without one is skipped. |
| SellCommand.SellSession.PrepareOrders | packages/cli/src/commands/sell.tsx:193-233 | Orders that already hold a balance are left alone. Otherwise each order gets its fetched balance and user. |
| SellCommand.PrepareOrdersRunsOnce | packages/cli/src/commands/sell.tsx:193-201 | Once a balance has been fetched, the guard holds, so preparing never runs twice. |
| SellCommand.LoopOrders | packages/cli/src/commands/sell.tsx:252-260 | The loop sees each order with its address, quantity, index and whether `shouldSkip` holds. |
| SellCommand.ShouldSkip | packages/cli/src/commands/sell.tsx:555-557 | An order goes ahead only when its balance is known and it asks for no more keys than are held. An order for a positive quantity of a key held zero times is always skipped. |
| SellCommand.CountKeysToSell | packages/cli/src/commands/sell.tsx:399-408 | The tally is the sum of the quantities of the orders not skipped. |
| SellCommand.KeysToSellNext | packages/cli/src/commands/sell.tsx:399-408 | One more order adds its quantity to the tally exactly when it is not skipped. |
| SellCommand.StartSells | packages/cli/src/commands/sell.tsx:252-294 | The selling loop takes exactly the step trace of the shared order loop. |
| SellCommand.SellsOnlyWhatIsHeld | packages/cli/src/commands/sell.tsx:252-294 | Exactly the orders not skipped are sold, whichever fail. Every sale is of an order with a known balance and a quantity within it. |
| SellCommand.SellPauses | packages/cli/src/commands/sell.tsx:288-293 | With orders indexed by position, the loop pauses once after every sold order except the last order. |
| OrderLoop.KeptMembers | packages/cli/src/commands/buy.tsx:285-292 | The orders that go ahead are exactly those not skipped. |
| OrderLoop.OrderStepsShape | packages/cli/src/commands/buy.tsx:285-326 | A skipped order is only logged. Any other order is sent as one transaction, then followed by a pause iff its index is not the last index. |
| OrderLoop.Steps | packages/cli/src/commands/buy.tsx:285-326 | The first n orders take between n and 2n steps: one log line or transaction each, plus at most one pause. |
| OrderLoop.PauseFollowsSend | packages/cli/src/commands/buy.tsx:320-325 | Every pause in the trace comes right after a sent transaction: the `finally` block never pauses after a skipped order. |
| OrderLoop.RunLoop | packages/cli/src/commands/buy.tsx:285-326 | The `for` loop over the orders logs a skipped order and otherwise sends its transaction, then pauses unless the order's index is the last index; its steps are those of the step trace of all orders. |
| OrderLoop.CountedSteps | packages/cli/src/commands/buy.tsx:285-326 | The trace of the first n orders sends exactly the kept orders among them and pauses once per kept order whose index is not the last index. |
| OrderLoop.SendsConcat | packages/cli/src/commands/buy.tsx:285-326 | The transactions of two consecutive stretches of the loop are those of the first, then those of the second. |
| OrderLoop.KeptPairsStep | packages/cli/src/commands/buy.tsx:285-292 | One more order adds its address and quantity to those kept exactly when it is not skipped. |
| OrderLoop.KeptPairsOfKept | packages/cli/src/commands/buy.tsx:285-292 | The addresses and quantities kept from the first n orders are those of the orders among them not skipped. |
| OrderLoop.SendsExactlyKept | packages/cli/src/commands/buy.tsx:285-326 | After any number of orders, the transactions sent are the address and quantity of each order not skipped, in order, whichever of them failed. |
| OrderLoop.PausesBetweenSends | packages/cli/src/commands/buy.tsx:320-325 | When indices count positions and the last index is that of the last order, the loop pauses after every sent order except the last order. |
| OrderLoop.RunSends | packages/cli/src/commands/sell.tsx:252-294 | A whole run sends exactly the orders not skipped. |
| OrderLoop.RunPauses | packages/cli/src/commands/sell.tsx:288-293 | A whole run pauses as many times as orders were sent before the last position. |
| OrderLoop.SumQuantitiesIsSum | packages/cli/src/commands/buy.tsx:470-478 | The tally is a number iff every quantity is a number. It is then the arithmetic total of the quantities, added from the first order on, and it is not negative when no quantity is. |
| OrderLoop.SumKeptNext | packages/cli/src/commands/buy.tsx:469-478 | One more order adds its quantity to the tally exactly when it is not skipped. |
| Nuke.Next | packages/cli/src/commands/nuke.tsx:234-290 | These are the gate's transitions. An error is final. Cancelling at a confirmation gives the "Phew" error. A wrong typed address gives its error and no step. Keys are prepared only after two confirmations and the exact wallet address. The final confirmation follows only loaded keys, and selling follows only a confirmed final confirmation. |
| Nuke.Run | packages/cli/src/commands/nuke.tsx:234-290 | Any run starts from the first step with no confirmation. The number of confirmations never goes above two, and it is exactly two at every step past the first. |
| Nuke.RunKeepsInvariant | packages/cli/src/commands/nuke.tsx:234-290 | After any event sequence, the gate is in a consistent state, and every step past the first was reached through the typed address after two confirmations. |
| Nuke.GatePassedOnlyAfterTwoConfirmsAndAddress | packages/cli/src/commands/nuke.tsx:242-261 | Any run that leaves the first step contains the wallet address typed after at least two confirmations. |
| Nuke.WrongAddressIsFinal | packages/cli/src/commands/nuke.tsx:254-258 | After a wrong typed address, the gate stays at the first step with that error, whatever follows. |
| Nuke.CountKeys | packages/cli/src/commands/nuke.tsx:391-399 | The loop returns the sum of all balances. |
| Nuke.TotalBalanceBounds | packages/cli/src/commands/nuke.tsx:391-399 | The sum is 0 for no holdings, and at least the number of holdings when every balance is positive. |
| Nuke.NukeOrders | packages/cli/src/commands/nuke.tsx:140-147 | There is one order per holding, in map order, with quantity = balance and index = position + 1. |
| Nuke.KeptNothingSkipped | packages/cli/src/commands/nuke.tsx:149-185 | `nuke` never skips an order. |
| Nuke.LoopOrdersAllKept | packages/cli/src/commands/nuke.tsx:149-185 | The loop passes over none of the `nuke` orders. |
| Nuke.SumOfNukeOrders | packages/cli/src/commands/nuke.tsx:140-147 | The quantities of the orders add up to the balances. |
| Nuke.SumOfAllNukeOrders | packages/cli/src/commands/nuke.tsx:140-147 | The quantities of all the orders add up to the sum of all the balances. |
| Nuke.CountMatchesOrders | packages/cli/src/commands/nuke.tsx:272 | The number of keys announced at the final confirmation is the total quantity the loop then sells. |
| Nuke.SellAllKeysAsWritten | packages/cli/src/commands/nuke.tsx:149-185 | The selling loop as written: the shared loop whose last index is one less than the number of orders. It skips nothing: every order is sent once, in order, whatever fails. |
| Nuke.NextToLastOrderSkipsPause | packages/cli/src/commands/nuke.tsx:145-181 | As written, the next-to-last order is followed by no pause, and the last order by one. |
| Nuke.TwoHoldingsAsWritten | packages/cli/src/commands/nuke.tsx:145-181 | With two holdings, the loop as written sells both with no pause between them, then pauses. |
| Nuke.SellAllKeys | packages/cli/src/commands/nuke.tsx:149-185 | The corrected loop: the same steps, with the last index being that of the last order. Every order is sent once, in order, whatever fails. |
| Nuke.SellAllKeysSellsEverything | packages/cli/src/commands/nuke.tsx:149-185 | Every holding is sold in map order with its full balance, whichever sales fail. |
| Nuke.SellAllKeysPausesBetweenOrders | packages/cli/src/commands/nuke.tsx:180-183 | The corrected loop pauses once between consecutive orders and not after the last order. |
| Credentials.WalletsOf | packages/cli/src/clients/keychain.ts:122-130 | There is one wallet per stored entry, in store order, with address, name and key copied. Every stored address appears. |
| Credentials.WithoutAddressKeepsOthers | packages/cli/src/clients/keychain.ts:146-152 | The reduce keeps, in order, every entry except the removed address, with its value. |
| Credentials.FilterMembers | packages/cli/src/clients/keychain.ts:146-152 | The kept addresses are exactly those different from the removed one. |
| Credentials.FilterAbsent | packages/cli/src/clients/keychain.ts:146-152 | Removing an absent address keeps every address. |
| Credentials.RemoveWalletEffect | packages/cli/src/clients/keychain.ts:143-157 | After removal the address is absent, and every other wallet is present iff it was, with the same value. |
| Credentials.WithoutAddressWhole | packages/cli/src/clients/keychain.ts:146-152 | The whole reduce keeps the other addresses in order and the map of their values. |
| Credentials.RemoveAbsentWallet | packages/cli/src/clients/keychain.ts:143-157 | Removing an address that is not stored changes nothing. |
| Credentials.PutValid | packages/cli/src/clients/keychain.ts:132-141 | Adding a wallet to a valid store keeps it valid iff the address has 42 characters and the private key 64. |
| Credentials.RemoveValid | packages/cli/src/clients/keychain.ts:143-157 | Removing a wallet keeps a valid store valid. |
| Credentials.WalletsAfterSet | packages/cli/src/clients/keychain.ts:122-141 | After `setWallet`, the new wallet is listed and every other wallet still is. |
| Credentials.Keychain.constructor | packages/cli/src/clients/keychain.ts:83-91 | A new keychain has nothing saved. |
| Credentials.Keychain.GetStore | packages/cli/src/clients/keychain.ts:83-100 | With nothing saved, the store is the empty wallet record with no optional field. A saved store is valid. |
| Credentials.Keychain.SetStore | packages/cli/src/clients/keychain.ts:102-114 | The store is saved iff every wallet key has 42 characters and every private key 64. Otherwise nothing is saved. |
| Credentials.Keychain.GetWallets | packages/cli/src/clients/keychain.ts:122-130 | The wallets are those of the stored record, one per entry, listed in the order their addresses were first saved. |
| Credentials.Keychain.SetWallet | packages/cli/src/clients/keychain.ts:132-141 | The wallet is saved iff its lengths are right, and the saved store is the old one with that wallet set. Otherwise nothing changes. |
| Credentials.Keychain.RemoveWallet | packages/cli/src/clients/keychain.ts:143-157 | The saved store is the old one without the address. |
| Credentials.Keychain.GetNodeProviderUrl | packages/cli/src/clients/keychain.ts:159-163 | There is no URL when nothing is saved. |
| Credentials.Keychain.SetNodeProviderUrl | packages/cli/src/clients/keychain.ts:165-171 | Only the URL changes, and the getter then returns it. |
| Credentials.Keychain.GetTwitterCredentials | packages/cli/src/clients/keychain.ts:173-177 | There are no credentials when nothing is saved. |
| Credentials.Keychain.SetTwitterCredentials | packages/cli/src/clients/keychain.ts:179-193 | Only the Twitter credentials change, and the getter then returns them. |
| Credentials.Keychain.GetFtToken | packages/cli/src/clients/keychain.ts:195-199 | There is no token when nothing is saved. |
| Credentials.Keychain.SetFtToken | packages/cli/src/clients/keychain.ts:201-207 | Only the token changes, and the getter then returns it. |
| Credentials.Keychain.GetTelegramApiKey | packages/cli/src/clients/keychain.ts:209-213 | There is no key when nothing is saved. |
| Credentials.Keychain.SetTelegramApiKey | packages/cli/src/clients/keychain.ts:215-221 | Only the Telegram key changes, and the getter then returns it. |
| Credentials.Keychain.GetBasescanApiKey | packages/cli/src/clients/keychain.ts:223-227 | There is no key when nothing is saved. |
| Credentials.Keychain.SetBasescanApiKey | packages/cli/src/clients/keychain.ts:229-235 | Only the Basescan key changes, and the getter then returns it. |
| Common.SortBy | packages/cli/src/commands/report.tsx:156 | The result is in non-decreasing key order and is a permutation of the input. |
| Common.SortByStable | packages/cli/src/commands/list-keys.tsx:119-121 | The sort is stable: the elements with any one key keep their input order. |
| Report.InternalRowsAreFees | packages/cli/src/commands/report.tsx:95-106 | The fee rows are exactly the internal transactions sent by the contract. Each is tagged `receiveFees`, with no shares number and no fee. |
| Report.BuildIndex | packages/cli/src/commands/report.tsx:111-113 | The `forEach` builds the hash-to-position map of the fee rows. |
| Report.IndexHoldsLastPosition | packages/cli/src/commands/report.tsx:111-113 | A hash is in the map iff some fee row has it, and it maps to the last such row. |
| Report.NameBeforeParen | packages/cli/src/commands/report.tsx:123 | The function name is the longest prefix without `(`, and the input continues with `(` after it. |
| Report.OwnTrades | packages/cli/src/commands/report.tsx:115-120 | A normal transaction is kept iff it is from the account and its function name starts with `buyShares` or `sellShares`. |
| Report.TradeRow | packages/cli/src/commands/report.tsx:121-147 | A sale whose hash matches a fee row takes that row's amount. Any other trade keeps its own value. The row carries the function name, the shares number and the fee gasUsed·gasPrice. |
| Report.UsedHashes | packages/cli/src/commands/report.tsx:130-137 | A hash is marked used iff a sale with that hash matched a fee row. |
| Report.MapTrades | packages/cli/src/commands/report.tsx:121-147 | The `map` yields each trade's row and marks the used hashes. |
| Report.MapTrade | packages/cli/src/commands/report.tsx:121-147 | The callback yields the trade's row and consumes a fee row iff the trade is a sale matching one. |
| Report.UsedHashesNext | packages/cli/src/commands/report.tsx:130-137 | One more trade adds its hash to the used set exactly when it is a sale that matched a fee row. |
| Report.TradeRowsNext | packages/cli/src/commands/report.tsx:121-147 | One more trade appends its row. |
| Report.Unused | packages/cli/src/commands/report.tsx:154 | The kept fee rows are exactly those whose hash is not used. |
| Report.Assemble | packages/cli/src/commands/report.tsx:149-156 | The merged rows are sorted by timestamp and are a permutation of the trade rows followed by the unused fee rows, repeated rows counted with their multiplicity. |
| Report.ReportCsv | packages/cli/src/commands/report.tsx:157-168 | The fixed header comes first, then one line per row in order. |
| Report.BuildReport | packages/cli/src/commands/report.tsx:65-180 | The steps after the fetches compute the report, an empty one included. |
| Report.ReportOf | packages/cli/src/commands/report.tsx:65-180 | Nothing is fetched into a report (`FetchFailed`) iff a response is not `OK`. Rows that are reported are not empty and are in non-decreasing timestamp order. |
| Report.ReportOutcome | packages/cli/src/commands/report.tsx:65-180 | The report fails iff either response's message is not `OK`. Otherwise the rows are empty, so that reading `data[0]` throws after the file is saved, iff the account has no own trade and no fee income. |
| Report.ReportShape | packages/cli/src/commands/report.tsx:149-156 | The rows are in non-decreasing timestamp order and are a permutation of the own trades' rows and the unused fee rows: one per own trade and one per unused fee row. |
| Report.FeeRowReportedIffUnused | packages/cli/src/commands/report.tsx:149-155 | A fee row is reported iff no sale consumed its hash. |
| Report.TradesReported | packages/cli/src/commands/report.tsx:115-156 | Every own trade of the account is reported. |
| Report.RowsWithFeeAreTrades | packages/cli/src/commands/report.tsx:115-156 | A reported row that carries a fee is the row of an own trade of the account. |
| ListKeys.CutoffMeansInactive | packages/cli/src/commands/list-keys.tsx:99 | Being last online before the cutoff means having been offline for more than `inactiveDays` × 86 400 000 ms. |
| ListKeys.InactiveMembers | packages/cli/src/commands/list-keys.tsx:113-117 | A user is listed iff it was fetched, has a positive `lastOnline`, and was last online before the cutoff. |
| ListKeys.RowAsWrittenSwapsTimeColumns | packages/cli/src/commands/list-keys.tsx:123-134 | For every user, the line as written puts the timestamp under `ts` and the relative time under `lastOnline`. |
| ListKeys.RowAsWritten | packages/cli/src/commands/list-keys.tsx:123-134 | The line as written agrees with the corrected line in its first five cells and has the last two exchanged. |
| ListKeys.InactiveRow | packages/cli/src/commands/list-keys.tsx:119-134 | Every cell of the corrected line sits under its header column, with the address and the wallet's balance of the user's keys. |
| ListKeys.CollectInactive | packages/cli/src/commands/list-keys.tsx:103-117 | The loop collects, in order, the fetched users with a positive `lastOnline` before the cutoff. |
| ListKeys.WriteLines | packages/cli/src/commands/list-keys.tsx:123-136 | The header comes first, then one line per sorted user, in order, laid out as written or corrected, with that user's balance. |
| ListKeys.ListInactiveUsers | packages/cli/src/commands/list-keys.tsx:99-138 | The corrected command: the header comes first, then one line per listed user in sorted order with its queried balance, every cell under its own column. The count is the number of lines after the header. |
| ListKeys.ListInactiveUsersAsWritten | packages/cli/src/commands/list-keys.tsx:99-138 | The command as written: the same header and users, in the same order and with the same balances, but no line matches the header, since each line has the two time columns swapped. |
| ListKeys.ListedUsersAreSortedInactive | packages/cli/src/commands/list-keys.tsx:113-121 | The listed users are in ascending `lastOnline` order. They are a permutation of the filtered users, and exactly the inactive fetched users. |
| RecentUsers.CollectUsers | packages/cli/src/commands/recent-users.tsx:55-61 | The loop builds the map over the recent messagers followed by the online users. |
| RecentUsers.UsersOfNext | packages/cli/src/commands/recent-users.tsx:55-61 | One more user is one more `set` of its address to its entry. |
| RecentUsers.UsersOfDomain | packages/cli/src/commands/recent-users.tsx:55-61 | An address is in the map iff some user has it. |
| RecentUsers.UsersOfLast | packages/cli/src/commands/recent-users.tsx:55-61 | The map holds, for an address, the entry of the last user with it. |
| RecentUsers.OnlineOverridesRecent | packages/cli/src/commands/recent-users.tsx:55-61 | An online user's entry replaces a recent messager's entry for the same address. |
| RecentUsers.UsersNumIsDistinctAddresses | packages/cli/src/commands/recent-users.tsx:63 | `usersNum` is the number of distinct addresses over both lists. |
| RecentUsers.BuildCsv | packages/cli/src/commands/recent-users.tsx:66-79 | The header comes first, then one line per map entry within the price, in map order. The count is the number of lines after the header. |
| RecentUsers.RecentRowsExactlyAffordable | packages/cli/src/commands/recent-users.tsx:68-76 | A line is written iff its address's price is at most the maximum. Every line has quantity 1. |

## Left out

- **Terminal UI.** The Ink/React rendering, the option parsing, the `LogItem`s and the wallet selection screens are not modelled.
- **Network clients, Telegram and the health server.** The friend.tech API, Basescan, the JSON-RPC contract client and Telegram are not modelled. Their answers are parameters. Event subscription is not modelled.
- **The macOS keychain, JSON (de)serialisation and zod's `url()`/`email()` checks.** A saved store exists only through `SetStore`'s length check. `getStore` failing on an unparseable stored value is not modelled.
- **File output.** `saveToCsv` and the debug log are not modelled. The buy command's user cache, `getCachedUsers`/`setCachedUsers`, is not modelled either.
- **Floats.** This covers ETH totals (`totalPrice`), `formatEther`, `roundEth`, relative-time wording and ISO dates. Prices are exact `real`s; wei amounts and fees stay integers.
- SellRule.CheckHowManyToSell: models `Math.ceil` of a float quotient as exact integer ceiling division. Float rounding at exact-integer boundaries is not modelled.
- **Buy `prepareOrders`.** The per-order fetch of ownership and user, with its cache, is not modelled: it is I/O. Orders enter the loop with `owns` and `user` already set.
- **The sell `Promise.all` fan-out.** `PrepareOrders` takes the results in order, as they arrive at the end.
- **The initial `wait(2)`** before the buy and sell loops, and the timers behind every pause, are not in the step trace. The random part of `delay.ts` is not modelled either.
- **The optional shuffle of the CSV rows** before `formatData` in `buy` and `sell` is not modelled: the rows enter in the order given.
- **Unseen helpers.**
  - `compareHashes` is modelled as ASCII case-insensitive equality.
  - `pluralize` and `removeDoubleQuotes` are not modelled.
  - `chunk` is not modelled; the detailed users arrive as one list.
  - `parseTransaction` becomes the `sharesNum` field of a transaction.
- SellCommand.DefaultQuantity: models quantities as integers or `NaN`. A fractional quantity read from the CSV is outside the model.
- ListKeys.ListInactiveUsers: takes `inactiveDays` as a whole number and both `Date.now()` readings as one `now`.
- RecentUsers.CollectUsers: takes the price as the exact quotient of wei by 10^18, not its float rounding.
- **The report's text formatting** (`toISOString`, `formatEther`, `join(',')`) is not modelled. Rows keep timestamps, wei amounts and fees as numbers.
- **Dev-mode throttle.** The 30-second timer is an explicit `ThrottleExpired` call.
- BuyCommand.CheckDelay: takes the delay as a whole number of seconds or `NaN`. A fractional delay such as "20.5s" and `Infinity`, both of which the check accepts, are outside the model.
- BuyCommand.FormatData: takes quantities as integers or `NaN`. A fractional quantity from the CSV, which `Number` keeps and the key tally adds up, is outside the model.
- BuyCommand.CountKeysToBuy: adds quantities exactly; a tally of fractional quantities with float rounding is outside the model.
- **Telegram recipient.** An unset `telegramUserId`, for which no message is sent at all, is not modelled; every notification is attempted.
- WatchSells.React: follows the code, in which a throwing `sendMessage` ends the handler in its `catch`, so that no sale is made. `NotifyFailureBlocksSale` states this. Whether the `sendMessage` after a sale throws is not modelled: the sold message is only composed.

## Findings

| source | as written | input that shows it | evidently intended | confidence | as-written member | corrected member |
|---|---|---|---|---|---|---|
| packages/cli/src/commands/nuke.tsx:145-181 | Orders are numbered from 1, but the pause is skipped when `order.index !== orders.length - 1` is false. That skips the pause after the next-to-last order and keeps it after the last order. | Two holdings: the trace is sell, sell, pause. | Pause between consecutive orders and not after the last order, as the comment at line 180 says. | not executed | Nuke.TwoHoldingsAsWritten | Nuke.SellAllKeysPausesBetweenOrders |
| packages/cli/src/commands/list-keys.tsx:123-134 | The header ends `ts,lastOnline`, but each line ends with the `lastOnline` timestamp, then the relative time. | Any inactive user: the timestamp lands under `ts` and the relative time under `lastOnline`. | Each value under its own column: the relative time, named `ts` at line 120, under `ts`, and the timestamp under `lastOnline`. If `ts` is instead read as "timestamp", the header matches the order written and there is no swap; only the name at line 120 supports the first reading. | not executed | ListKeys.RowAsWrittenSwapsTimeColumns | ListKeys.InactiveRow |
