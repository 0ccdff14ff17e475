# Marketplace bookkeeping, modelled in Dafny

The server sells game-server mods. It keeps each user's money, the mods that run on each
of their servers, and their personal stock of mod slots. It also keeps the subscriptions
and time-boxed purchases that put mods there, the developers' profit trail, and the catalog
editors' image lists. The model covers the parts that change that state:

- the allocation handler (`ChangeModsAllocations`), which moves mod ids between a server's
  comma list and the user's stock `id[count],id[count],…`;
- the two purchase handlers (`HandleBoughtMods`, `BuyPremium`);
- the balance handler's transfer and deposit (`ProcessTransactionAsync`, `ProcessDepositAsync`);
- one run of the daily refresher (`HandleSubscription` and `HandleMods`), which renews,
  lapses, takes mods off servers and returns stock slots;
- the upload controller's image-list and file-record bookkeeping;
- the catalog editors' create, update and remove rules, the earnings projection and the
  webhook permission check.

Layout:

- `wrappers.dfy` (`Wrappers`): `Option`, `Result` and a handler `Outcome`.
- `text.dfy` (`Text`): the string operations the handlers use, written out. These are
  `Trim`, `Split`, `string.Join`, first-match search, `int.TryParse`/`int.Parse` on 32-bit
  integers and `ToString`.
- `records.dfy` (`Records`, `Store`): the table rows, the `FirstOrDefault` lookups, the
  `Tables` value and the `Database` class. The class has one `seq` field per table, and the
  handlers change those fields in place.
- `idlists.dfy` (`IdLists`): comma lists of ids, `Where(Contains)`, `RemoveAll`, `Except`,
  `Remove`, `Sort`, and the list codec.
- `claims.dfy` (`ClaimCodec`): the stock codec (`Decode`/`Encode`) and slot counting
  (`Inc`/`Dec`).
- `ledger.dfy` (`Ledger`): the balance handler.
- `allocation.dfy`, `purchases.dfy`, `refresher.dfy`, `uploads.dfy`, `moderation.dfy`: the
  handlers.

Each handler follows the same pattern:

1. A function over `Tables` returns the new tables or the error. The properties are proved
   about that function.
2. A method on `Database` runs the source's loops and assignments.
3. The method's postcondition says that on an error nothing changes, and that otherwise the
   new tables are exactly what the function gives for the old ones.

Balances are `real`, prices are `int` (as in the catalog records), and dates are day numbers.

## Model

| member | source | states |
|---|---|---|
| Text.TrimStartSpec | data/UserController.cs:429 | `Trim` drops exactly the leading white space: what remains is a suffix that does not start with white space |
| Text.TrimEndSpec | data/UserController.cs:429 | `Trim` drops exactly the trailing white space |
| Text.TrimEndChar | data/UserController.cs:432 | `TrimEnd(']')` removes every trailing ']' and nothing else |
| Text.FindSpec | data/UserController.cs:401 | the separator search returns the first occurrence, or none when there is no occurrence |
| Text.FindFirst | data/UserController.cs:401 | no occurrence of the separator comes before the one found, and there is none at all when the search fails |
| Text.SplitOnSpec | data/UserController.cs:401-409 | joining the pieces of a split with the separator gives back the text |
| Text.SplitOnJoin | data/UserController.cs:461 | splitting a join of pieces without the separator's first character gives back the pieces |
| Text.BeforeOfPrefixed | data/ModerRequestsController.cs:270 | a text that starts with the separator has an empty first piece |
| Text.ParseInt | data/UserController.cs:431-432 | the integer parse only ever yields values in the 32-bit range |
| Text.IntToString | data/UserController.cs:469 | `ToString` writes an optional '-' and then digits, ending in a digit |
| Text.ParseIntToString | data/UserController.cs:461 | every 32-bit integer written by `ToString` parses back to itself |
| Text.ParseBlankFails | data/UserController.cs:416 | blank text, "" included, never parses as a number |
| Records.FirstIndex | data/DailyTaskRefresher.cs:62 | `FirstOrDefault` finds the first row satisfying the predicate, or none if no row does |
| Records.CatalogIdsHaveMod | data/UserController.cs:418-421 | an id is in the catalog id list exactly when a catalog row has that id |
| IdLists.AmongCount | data/UserController.cs:420-421 | filtering by `Contains` keeps every occurrence of the listed ids and nothing else |
| IdLists.NotAmongCount | data/UserController.cs:466 | `RemoveAll(Contains)` keeps every occurrence of the other ids and nothing else |
| IdLists.NotAmongMembers | data/UserController.cs:466 | an id survives `RemoveAll` exactly when it was on the list and not among the removed ids |
| IdLists.Except | data/UserController.cs:467 | `Except` yields, without repeats, exactly the ids of the first list absent from the second |
| IdLists.ExceptOrder | data/UserController.cs:467 | `Except` keeps its ids in the order in which they first occur in the first list |
| IdLists.RemoveFirstAt | data/DailyTaskRefresher.cs:127 | `Remove` takes out exactly the first occurrence and keeps the order of the rest; an absent id changes nothing |
| IdLists.RemoveFirstPresent | data/DailyTaskRefresher.cs:127 | when `k` is the first position of the id, `Remove` yields the list without position `k` |
| IdLists.RemoveFirstCount | data/DailyTaskRefresher.cs:127 | `Remove` takes away one copy of the id when there is one |
| IdLists.Sort | data/UserController.cs:1134 | `Sort` gives an ascending permutation of the list |
| IdLists.SortInt32 | data/UserController.cs:1134 | sorting keeps the length and keeps every id in the 32-bit range |
| IdLists.ParseJoinIds | data/UserController.cs:469 | a non-empty list of 32-bit ids written with `Join(",")` reads back as the same list |
| IdLists.EmptyListUnreadable | data/UserController.cs:469 | an emptied server list is written as "", and `int.Parse` rejects "" |
| IdLists.ParseBatchMembers | data/UserController.cs:404-412 | a batch holds an id exactly when some comma token, trimmed, parses as that id |
| ClaimCodec.ParseEntry | data/UserController.cs:429-432 | an accepted stock entry yields a 32-bit id and a 32-bit count |
| ClaimCodec.ParseClaimedMods | data/UserController.cs:423-437 | the parse loop builds exactly the decoded dictionary |
| ClaimCodec.DecodeLastWins | data/UserController.cs:425-437 | an id is decoded exactly when some good entry names it, and its count is the one from its last good entry |
| ClaimCodec.DecodeNamed | data/UserController.cs:425-437 | an id is in the decoded stock exactly when some good entry names it |
| ClaimCodec.DecodeInt32 | data/UserController.cs:431-432 | every decoded id and count fits in 32 bits |
| ClaimCodec.EntriesSpec | data/UserController.cs:461 | the written entries are every pair of the dictionary once, ids ascending |
| ClaimCodec.EncodeEmpty | data/UserController.cs:461 | an empty stock is written as "" |
| ClaimCodec.ParseToken | data/UserController.cs:461 | a written `id[count]` entry reads back as its pair |
| ClaimCodec.DecodeEncode | data/UserController.cs:425-437 | decoding the written stock gives back the same dictionary |
| ClaimCodec.Inc | data/UserController.cs:457 | an increment adds one slot for the id, inserting it at 1, and leaves every other id as it was |
| ClaimCodec.Dec | data/UserController.cs:443-449 | a count above 1 drops by one, a count of 1 removes the id, an absent id stays absent, other ids keep theirs |
| ClaimCodec.DecNeverZero | data/UserController.cs:443-449 | a decrement never leaves a count of 0 or below |
| ClaimCodec.IncKeepsPositive | data/UserController.cs:457 | an increment keeps every count at least 1 |
| ClaimCodec.DecUndoesInc | data/UserController.cs:443-457 | on a stock with positive counts, a decrement undoes an increment |
| ClaimCodec.DecCount | data/DailyTaskRefresher.cs:171-180 | on a stock with positive counts, a decrement takes one slot, down to none |
| ClaimCodec.IncAllCount | data/UserController.cs:1209-1212 | each id gains one slot per occurrence in the batch, and other ids keep theirs |
| ClaimCodec.IncAllKeepsPositive | data/UserController.cs:453-459 | the increment pass keeps every count at least 1 |
| ClaimCodec.DecAllKeys | data/UserController.cs:439-451 | the decrement pass never adds an id |
| ClaimCodec.DecAllKeepsPositive | data/UserController.cs:439-451 | the decrement pass keeps every count at least 1 |
| ClaimCodec.DecAllCount | data/UserController.cs:439-451 | each id loses one slot per occurrence in the batch, down to none |
| Ledger.TotalBalanceUpdate | data/BalanceHandler.cs:45 | changing one account's balance changes the sum of all balances by the same amount |
| Ledger.Transfer | data/BalanceHandler.cs:20-50 | the transfer fails exactly for a negative amount (0 is accepted); only the accounts and the profit trail change, and at most one row is appended |
| Ledger.TransferWithoutPayee | data/BalanceHandler.cs:27-33 | without a developer row for the name, or without an account with that login, nothing changes |
| Ledger.TransferCredits | data/BalanceHandler.cs:35-47 | otherwise the developer's account gains the full amount, and exactly one row is appended: buyer, item, amount, developer, profit 0, not cashed out; the buyer is not debited |
| Ledger.TransferConserves | data/BalanceHandler.cs:35-47 | a transfer raises the sum of all balances by exactly the amount on the new rows |
| Ledger.PayeeAccount | data/BalanceHandler.cs:27-37 | the credited account, when there is one, carries the developer name as its login, and some developer row carries that name |
| Ledger.TransferAccounts | data/BalanceHandler.cs:24-47 | account by account, a transfer of a non-negative amount succeeds and credits exactly the payee account, leaving every other account as it was |
| Ledger.Deposit | data/BalanceHandler.cs:52-90 | a deposit throws for a negative amount or an unknown user id; otherwise only the accounts change, and exactly one row is appended |
| Ledger.DepositEffect | data/BalanceHandler.cs:61-87 | a deposit changes only that user's balance: SET sets it to the amount, ADD adds the net. The row has Amount net and Profit 15% with Amount + Profit = amount, the user on both sides, the mode's tag, and is not cashed out |
| Ledger.DepositAddConserves | data/BalanceHandler.cs:74-85 | an ADD deposit raises the sum of all balances by exactly the net on its row |
| Ledger.ProcessTransactionAsync | data/BalanceHandler.cs:20-50 | the database is changed exactly as the transfer says, and left alone when it throws |
| Ledger.ProcessDepositAsync | data/BalanceHandler.cs:52-90 | the database is changed exactly as the deposit says, and left alone when it throws |
| Allocation.Allocate | data/UserController.cs:386-478 | an accepted request has a known user and server, and it changes only the accounts and the servers |
| Allocation.Reallocate | data/UserController.cs:423-469 | the accepted request rewrites only accounts and servers |
| Allocation.ReleaseSlots | data/UserController.cs:439-451 | the from-storage loop decrements exactly the from-storage ids that are not on the server |
| Allocation.ReleaseSlot | data/UserController.cs:443-449 | one from-storage turn lowers the id's count by one, or drops the id at a count of 1; an absent id stays absent |
| Allocation.ClaimSlots | data/UserController.cs:453-459 | the to-storage loop increments exactly the to-storage ids that are on the server |
| Allocation.ClaimSlot | data/UserController.cs:457 | one to-storage turn adds a slot for the id, starting at 1 for an id not held |
| Allocation.Rewrite | data/UserController.cs:423-469 | the accepted request changes the database exactly as the reallocation function says |
| Allocation.ChangeModsAllocations | data/UserController.cs:386-478 | the database is changed exactly as the handler function says, and left alone on a refusal |
| Allocation.ClaimsAfterCount | data/UserController.cs:439-459 | per id, the new count is the old count less one per from-storage occurrence (off-server ids only, down to none), plus one per to-storage occurrence (on-server ids only) |
| Allocation.ClaimsAfterPositive | data/UserController.cs:439-459 | no count reaches 0 or below |
| Allocation.ListAfterShape | data/UserController.cs:463-469 | the new list is the old list without the to-storage ids. Then come exactly the from-storage ids not yet on it, once each, in the order of their first occurrence in the request; the list holds exactly those ids |
| Allocation.SplitHasSecond | data/UserController.cs:401-402 | the request has a second half exactly when it contains "](" |
| Allocation.MalformedRequestFails | data/UserController.cs:401-414 | a request without "](", or with two halves that hold no number at all, is refused |
| Allocation.ParseIdsShape | data/UserController.cs:416 | a server list that reads is never empty and holds only 32-bit ids |
| Allocation.ParsedNotBlank | data/UserController.cs:463-464 | a server list that reads is never blank, so both reads of it agree |
| Allocation.AllocateAccepts | data/UserController.cs:388-421 | a request is accepted exactly when no input is blank, the login and the ip are found, the ids split on "](", the halves hold a number between them, and the server's list parses |
| Allocation.AllocateAccepted | data/UserController.cs:401-469 | a request that passes those guards reallocates the first user with the login and the first server with the ip, using the server's parsed list and both batches filtered to catalog ids; what a reallocation does is proved about Reallocate |
| Allocation.ReallocateNothing | data/UserController.cs:461-469 | with both batches empty, only the two strings are rewritten, and they read back as before |
| Allocation.StockUnchanged | data/UserController.cs:461 | with both batches empty, the rewritten stock decodes to the stock read |
| Allocation.ListUnchanged | data/UserController.cs:463-469 | with both batches empty, the rewritten server list reads back as the list read |
| Allocation.UnknownIdsChangeNothing | data/UserController.cs:414-421 | a request that passes the guards, but whose ids are all unknown to the catalog, is accepted and changes nothing that reads back |
| Purchases.Requested | data/UserController.cs:1085 | no more rows are requested than the catalog holds |
| Purchases.RequestedMembers | data/UserController.cs:1085 | a row is requested exactly when it is in the catalog and its id was asked for |
| Purchases.Fresh | data/UserController.cs:1103-1107 | the rows bought are at most the rows found |
| Purchases.PurchasesOf | data/UserController.cs:1108-1116 | one purchase row per bought mod |
| Purchases.BuyStep | data/UserController.cs:1101-1130 | one loop step changes only accounts, profit rows and purchases |
| Purchases.Pay | data/UserController.cs:1105-1128 | paying for one mod changes only accounts, profit rows and purchases |
| Purchases.BuyAll | data/UserController.cs:1101-1130 | the loop changes only accounts, profit rows and purchases |
| Purchases.BuyMods | data/UserController.cs:1070-1148 | an accepted purchase changes only accounts, profit rows, purchases and servers |
| Purchases.Checkout | data/UserController.cs:1101-1136 | the accepted purchase changes only accounts, profit rows, purchases and servers |
| Purchases.FinishTotal | data/UserController.cs:1132 | the final debit lowers the sum of all balances by the running price and adds no profit row |
| Purchases.BuyAllIds | data/UserController.cs:1101-1130 | the loop appends exactly the ids of the mods not yet on the server. The running price ends as the price of those mods |
| Purchases.BuyAllPurchases | data/UserController.cs:1101-1130 | the loop appends one purchase row per newly bought mod, in order |
| Purchases.PayPurchases | data/UserController.cs:1108-1125 | each bought mod gets a purchase row with auto-renew on and expiry in 30 days |
| Purchases.PayConserves | data/UserController.cs:1105-1128 | paying for one mod raises the sum of balances by exactly what its new profit rows record |
| Purchases.BuyAllConserves | data/UserController.cs:1101-1130 | the loop raises the sum of balances by exactly what its new profit rows record |
| Purchases.BuyAllKeepsBuyer | data/UserController.cs:1101-1130 | when the buyer is no developer's payee, the loop leaves the buyer's account alone |
| Purchases.BuyModsAccepted | data/UserController.cs:1075-1101 | a purchase is accepted exactly when the server and account exist and the server is the account's. At least one mod must be found, the summed price of all of them must be between 0 and the balance, and the server list must read; then the accepted purchase is the checkout |
| Purchases.CheckoutLists | data/UserController.cs:1101-1136 | the server list is stored sorted and holds the old ids plus the ids of the mods bought. One purchase row per bought mod is appended |
| Purchases.CheckoutConserves | data/UserController.cs:1101-1136 | the sum of balances changes by the new profit rows minus the price of the mods bought |
| Purchases.CheckoutBuyer | data/UserController.cs:1132 | a buyer who is nobody's payee loses exactly the price of the mods not already on the server |
| Purchases.StoredListReads | data/UserController.cs:1134-1136 | the stored sorted list reads back as itself |
| Purchases.FreshFromMods | data/UserController.cs:1103-1107 | every bought mod is one of the found rows |
| Purchases.FreshInt32 | data/UserController.cs:1103-1107 | when every catalog id is a 32-bit integer, so is every id the loop adds to the server list |
| Purchases.TotalPrice | data/UserController.cs:1090-1095 | the first loop yields the sum of the prices of every found row, repeats included |
| Purchases.PayMod | data/UserController.cs:1105-1128 | one loop body on the database is exactly the one-mod payment |
| Purchases.HandleBoughtMods | data/UserController.cs:1070-1148 | the database is changed exactly as the handler function says, and left alone on a refusal |
| Purchases.BuyOne | data/UserController.cs:1105-1129 | one turn of the purchase loop on the database is exactly one step of the cart: a new mod is appended and paid for, a listed one only lowers the price |
| Purchases.BuyLoop | data/UserController.cs:1103-1130 | the purchase loop on the database is exactly the whole cart fold over the found rows |
| Purchases.Settle | data/UserController.cs:1132-1136 | the writes after the loop are exactly the debit of the running price and the sorted list |
| Purchases.PayAndStore | data/UserController.cs:1101-1136 | the second loop and the final writes on the database are exactly the checkout |
| Purchases.BuyPremium | data/UserController.cs:1150-1227 | an accepted subscription purchase changes only accounts, profit rows and subscriptions |
| Purchases.Subscribe | data/UserController.cs:1169-1216 | the accepted subscription purchase changes only accounts, profit rows and subscriptions |
| Purchases.BuyPremiumAccepted | data/UserController.cs:1153-1167 | a subscription purchase is accepted exactly when the account, the developer and its group's bundle exist and 0 < price <= balance |
| Purchases.SubscribeAppends | data/UserController.cs:1169-1178 | one active, auto-renewing subscription to the bundle, expiring in 30 days, is appended for the account |
| Purchases.SubscribeConserves | data/UserController.cs:1180-1182 | the sum of balances changes by the new profit rows minus the price |
| Purchases.SubscribeBuyer | data/UserController.cs:1182 | a buyer who is not the payee loses exactly the price, and keeps every field but the stock |
| Purchases.SubscribeClaims | data/UserController.cs:1184-1214 | every bundle id that parses and is in the catalog gains one slot per occurrence in the stock as it reads back |
| Purchases.AddSlots | data/UserController.cs:1209-1212 | the increment loop adds one slot per id, in order |
| Purchases.HandleBuyPremium | data/UserController.cs:1150-1227 | the database is changed exactly as the handler function says, and left alone on a refusal |
| Purchases.Enroll | data/UserController.cs:1169-1216 | the accepted purchase on the database is exactly the subscription function |
| Purchases.Credit | data/UserController.cs:1182-1214 | the debit and the stock update on the database are exactly the grant after the payment |
| Refresher.MissingModFree | data/DailyTaskRefresher.cs:194-211 | a mod not in the catalog costs 0 and has the empty payee; a mod whose group has no developer row has the empty payee |
| Refresher.SubStep | data/DailyTaskRefresher.cs:58-81 | one subscription row changes only accounts, profit rows and subscriptions, and at most that row's expiry or active flag. A row that throws changes nothing |
| Refresher.RenewSubscription | data/DailyTaskRefresher.cs:66-75 | the renewal changes only accounts, profit rows and that row's expiry |
| Refresher.SubSweep | data/DailyTaskRefresher.cs:54-82 | the subscription sweep changes only accounts, profit rows and subscriptions, and keeps the number of rows |
| Refresher.SubStepIdle | data/DailyTaskRefresher.cs:54-60 | an inactive row, or one that has not expired, is left alone |
| Refresher.SubStepMissing | data/DailyTaskRefresher.cs:62-66 | an expired auto-renewing row whose account or price row is missing stays active and expired |
| Refresher.SubStepLapses | data/DailyTaskRefresher.cs:78-81 | an expired row without auto-renew is deactivated and kept, and no balance changes |
| Refresher.SubStepRenews | data/DailyTaskRefresher.cs:60-76 | an expired auto-renewing row with account and price row is renewed whatever the balance. Expiry becomes today + 30 and the balances change by the new profit rows minus the price. Account by account, the payee gains the price, the subscriber loses it and every other account is unchanged; only a negative price with a developer row throws |
| Refresher.RenewConserves | data/DailyTaskRefresher.cs:68-74 | the renewal throws exactly for a negative price with a developer found. Otherwise the sum of balances changes by the new profit rows minus the price |
| Refresher.RenewSubscriptionAccounts | data/DailyTaskRefresher.cs:66-75 | account by account, a renewal that does not throw credits the payee the bundle price, charges the subscriber the same price and leaves every other account unchanged |
| Refresher.RenewDebitsSubscriber | data/DailyTaskRefresher.cs:68-74 | a subscriber whose login names no developer loses exactly the bundle price when the renewal does not throw |
| Refresher.ChargeSubscriptionTotal | data/DailyTaskRefresher.cs:73-74 | the charge after the payment lowers the sum of balances by exactly the price and adds no profit row |
| Refresher.RenewedRowRests | data/DailyTaskRefresher.cs:74 | a renewed row is no longer expired on the same day |
| Refresher.SubSweepKeeps | data/DailyTaskRefresher.cs:54-82 | the sweep changes no inactive or unexpired row |
| Refresher.SecondSweepKeepsRenewed | data/DailyTaskRefresher.cs:60-74 | a row renewed today keeps its renewal through a second sweep on the same day, so it is not charged again |
| Refresher.ModStep | data/DailyTaskRefresher.cs:96-188 | one purchase row changes only accounts, profit rows, purchases and servers, and of the purchases at most that row's expiry, moved to today + 30. A row that throws changes nothing |
| Refresher.RenewPurchase | data/DailyTaskRefresher.cs:105-118 | the renewal of a purchase changes only accounts, profit rows and that row's expiry, moved to today + 30 |
| Refresher.RemoveFromServer | data/DailyTaskRefresher.cs:121-131 | taking a mod off a server changes only the server lists, and a throw changes nothing |
| Refresher.ReleaseClaim | data/DailyTaskRefresher.cs:155-183 | returning a slot changes only that account's stock |
| Refresher.ModSweep | data/DailyTaskRefresher.cs:91-189 | the purchase sweep changes only accounts, profit rows, purchases and servers, and keeps the number of rows |
| Refresher.Tick | data/DailyTaskRefresher.cs:52-193 | one run changes only accounts, profit rows, subscriptions, purchases and servers |
| Refresher.ModStepIdle | data/DailyTaskRefresher.cs:98 | a purchase row that has not expired is left alone |
| Refresher.ModSweepKeeps | data/DailyTaskRefresher.cs:96-188 | the sweep changes no unexpired row, and no row's buyer, mod, server or renewal flag |
| Refresher.RenewPurchaseOutcome | data/DailyTaskRefresher.cs:105-118 | below the price nothing changes. A covered negative price throws with nothing changed. Otherwise the row is renewed to today + 30 and the balances change by the new profit rows minus the price |
| Refresher.RenewPurchaseAccounts | data/DailyTaskRefresher.cs:105-111 | account by account, a covered renewal that does not throw credits the payee the mod's price, charges the buyer the same price and leaves every other account unchanged. Below the price no account changes |
| Refresher.RenewPurchaseDebitsBuyer | data/DailyTaskRefresher.cs:105-111 | a buyer whose login names no developer loses exactly the mod's price on a covered renewal that does not throw |
| Refresher.ModStepRenews | data/DailyTaskRefresher.cs:96-118 | an expired auto-renewing purchase with a buyer is renewed whether or not it is on a server. Its expiry becomes today + 30 exactly when the balance covers a price of at least 0, and the sweep throws exactly when the covered price is negative |
| Refresher.RenewPurchaseCharges | data/DailyTaskRefresher.cs:105-111 | a covered renewal at a price of at least 0 does not throw, moves the row's expiry to today + 30, keeps the earlier profit rows, and changes the sum of balances by the new profit rows minus the price |
| Refresher.ChargePurchaseTotal | data/DailyTaskRefresher.cs:110-111 | the charge after the payment lowers the sum of balances by exactly the price and adds no profit row |
| Refresher.RemoveFromServerEffect | data/DailyTaskRefresher.cs:119-132 | only the first occurrence of the mod leaves the list, the rest keeps its order, and the list is rewritten only when the id was on it |
| Refresher.EmptiedListStopsLaterTicks | data/DailyTaskRefresher.cs:123-129 | removing a server's last mod writes "", and every later run that reaches a non-renewed expired purchase on that server throws there |
| Refresher.ReleaseClaimEffect | data/DailyTaskRefresher.cs:134-184 | an expired unassigned purchase without auto-renew takes one slot from the stock when the id is there, and otherwise changes nothing. The row stays expired, so each later run takes another slot |
| Refresher.UnassignedWithoutBuyer | data/DailyTaskRefresher.cs:136-137 | an unassigned purchase whose buyer is gone changes nothing |
| Refresher.SubscriptionRow | data/DailyTaskRefresher.cs:58-81 | one subscription row on the database is exactly the row function |
| Refresher.RenewSubscriptionRow | data/DailyTaskRefresher.cs:66-75 | the renewal on the database is exactly the renewal function |
| Refresher.ChargeSubscriptionRow | data/DailyTaskRefresher.cs:73-74 | the writes after the payment on the database are exactly the charge |
| Refresher.SubSweepRow | data/DailyTaskRefresher.cs:58-82 | one turn of the loop is a step of the sweep: a row that throws ends it with the database as that row left it, and otherwise the sweep goes on from the next row |
| Refresher.HandleSubscription | data/DailyTaskRefresher.cs:52-87 | the loop leaves the database as the subscription sweep says |
| Refresher.PurchaseRow | data/DailyTaskRefresher.cs:96-188 | one purchase row on the database is exactly the row function |
| Refresher.RenewPurchaseRow | data/DailyTaskRefresher.cs:105-118 | the purchase renewal on the database is exactly the renewal function |
| Refresher.ChargePurchaseRow | data/DailyTaskRefresher.cs:110-111 | the writes after the payment on the database are exactly the charge |
| Refresher.RemoveFromServerRow | data/DailyTaskRefresher.cs:121-131 | the removal on the database is exactly the removal function |
| Refresher.ReleaseClaimRow | data/DailyTaskRefresher.cs:155-183 | the slot return on the database is exactly the release function |
| Refresher.ModSweepRow | data/DailyTaskRefresher.cs:96-188 | one turn of the loop is a step of the sweep: a row that throws ends it with the database as that row left it, and otherwise the sweep goes on from the next row |
| Refresher.HandleMods | data/DailyTaskRefresher.cs:89-193 | the loop leaves the database as the purchase sweep says |
| Refresher.RefreshOnce | data/DailyTaskRefresher.cs:52-193 | one run of the refresher on the database is exactly the tick |
| Uploads.ExtensionShape | data/FileUploadController.cs:70 | an extension is empty, or a final part of the name that starts with its only '.', holds no separator and has a character after the dot |
| Uploads.AllImagesEach | data/FileUploadController.cs:68-73 | the form passes the per-file check exactly when every file does |
| Uploads.Slashed | data/FileUploadController.cs:205 | the stored path has no '\' and the same length |
| Uploads.NonEmpty | data/FileUploadController.cs:202 | no entry left after dropping empty pieces is empty |
| Uploads.Images | data/FileUploadController.cs:202-203 | the split list has no empty entry |
| Uploads.NonEmptyKeeps | data/FileUploadController.cs:202 | a list without empty pieces is kept as it is |
| Uploads.ImagesOfJoin | data/FileUploadController.cs:202-206 | storable entries joined with "!--!" split back into themselves |
| Uploads.ImageTarget | data/FileUploadController.cs:192-200 | the target is the first published mod with the name when there is one, else the first pending mod with it, else nothing |
| Uploads.SetImages | data/FileUploadController.cs:206-211 | storing a list changes only the target's image list |
| Uploads.AddImage | data/FileUploadController.cs:190-212 | adding an image changes only the mods and pending mods |
| Uploads.DropImage | data/FileUploadController.cs:214-239 | deleting an image changes only the mods and pending mods |
| Uploads.SetImagesTouchesTarget | data/FileUploadController.cs:192-206 | only the target row changes, and with no target nothing changes |
| Uploads.AddImageAppends | data/FileUploadController.cs:202-206 | the list read back after adding is the old non-empty entries in order, then the new path |
| Uploads.DropImageRemovesFirst | data/FileUploadController.cs:226-231 | the list read back after deleting is the old list without its first entry equal to the name, the rest in order |
| Uploads.DropAbsentImage | data/FileUploadController.cs:226-231 | deleting a name that is not on the list changes nothing but the dropped empty pieces |
| Uploads.UploadRecordsNeverMatch | data/FileUploadController.cs:243-256 | an upload's full path never equals a stored relative path, so the existing-record check never matches and each upload adds a record |
| Uploads.StoreOne | data/FileUploadController.cs:94-96 | one accepted file adds its record as the record step says (unless a saved record has the full path), and changes only mods, pending mods and records |
| Uploads.StoreAll | data/FileUploadController.cs:68-97 | the accepted files change only mods, pending mods and records |
| Uploads.AcceptUpload | data/FileUploadController.cs:42-102 | an accepted upload changes only mods, pending mods and records |
| Uploads.AcceptUploadGuards | data/FileUploadController.cs:44-73 | an upload fails exactly when the list is empty or has more than 8 files, or the mod name or user name is blank. It also fails when the folder holds more than 8 files or a file is not an image |
| Uploads.NoExtensionRejected | data/FileUploadController.cs:70-72 | a file without an extension is never an image |
| Uploads.NewRecords | data/FileUploadController.cs:249-254 | one record per file, in order, with the stored relative path |
| Uploads.StoreAllRecords | data/FileUploadController.cs:68-97 | each accepted file adds exactly one record after the existing ones |
| Uploads.CleanName | data/FileUploadController.cs:115-120 | a name starting with "user\" or "user/ " loses exactly its first length-of-"user/" characters; others are kept |
| Uploads.RemoveUpload | data/FileUploadController.cs:105-142 | a removal past the guards changes the image lists exactly as deleting the name as sent does; it answers `Ok` exactly when the file was on disk, and otherwise the missing-file refusal, and only a file on disk is deleted |
| Uploads.RemoveIgnoresDisk | data/FileUploadController.cs:131-139 | whether or not the file exists on disk, the tables agree afterwards; only the disk delete and the answer (`Ok` or the missing-file refusal) differ |
| Uploads.ModifyModInfo | data/FileUploadController.cs:190-212 | the database is changed exactly as adding an image says |
| Uploads.DeleteModInfo | data/FileUploadController.cs:214-239 | the database is changed exactly as deleting an image says |
| Uploads.CreateNewInfoAboutFile | data/FileUploadController.cs:241-257 | a record is added, with the relative path, unless a saved record already has the full path |
| Uploads.StoreFile | data/FileUploadController.cs:88-96 | the body of the upload loop for an accepted file changes the database exactly as storing one file says |
| Uploads.StoreFiles | data/FileUploadController.cs:68-99 | the loop succeeds exactly when every file is an image; then the database holds every file stored in order, and otherwise it is as before the loop |
| Uploads.UploadFiles | data/FileUploadController.cs:42-102 | the database is changed exactly as the upload function says, and left alone on a refusal or a rejected file |
| Uploads.RemoveFiles | data/FileUploadController.cs:105-142 | the database is changed, and the answer and the disk delete are returned, exactly as the removal function says; a guard refusal changes nothing |
| Moderation.OwnerOfGroup | data/ModerRequestsController.cs:270 | every "Mods by X" value has empty text before its first "Mods by " |
| Moderation.NormalisedOwnership | data/ModerRequestsController.cs:67-70 | a created pending mod passes its creator's removal check exactly when they sent an owned value, or their login is empty |
| Moderation.FilePaths | data/ModerRequestsController.cs:86-89 | the query yields no more paths than there are records |
| Moderation.FilePathsCount | data/ModerRequestsController.cs:86-89 | it yields exactly one path per record of the name |
| Moderation.FilePathsMembers | data/ModerRequestsController.cs:86-89 | a path is listed exactly when some record of the name has it |
| Moderation.Without | data/ModerRequestsController.cs:143-166 | removing marked rows never adds a row |
| Moderation.WithoutMembers | data/ModerRequestsController.cs:143-166 | a record survives exactly when some unmarked row holds it |
| Moderation.UnlinkSurvivors | data/ModerRequestsController.cs:132-166 | with distinct records, a record survives the update exactly when it belongs to another mod or its path is on the client's list |
| Moderation.DuplicateRecordsHalved | data/ModerRequestsController.cs:143-150 | of two identical records off the client's list only the first is removed |
| Moderation.AppendNewExcept | data/ModerRequestsController.cs:161 | appending each path not yet on the growing list is the same as appending `ps.Except(list)` |
| Moderation.AppendNewSpec | data/ModerRequestsController.cs:161 | the client's list stays in front, the result holds exactly the client's entries and the paths, the appended part is exactly the paths not on the client's list, with no repeats and in the order of first occurrence among the paths, and a list without repeats stays without repeats |
| Moderation.CreatePending | data/ModerRequestsController.cs:59-114 | an accepted create appends exactly one pending mod, keeps the others and changes nothing else |
| Moderation.CreatePendingGuards | data/ModerRequestsController.cs:59-73 | a create is refused, with nothing inserted, exactly when the body or login is missing or a published mod has the NameDWS |
| Moderation.CreatePendingRow | data/ModerRequestsController.cs:77-110 | the new row has the sent fields, the normalised developer and no refusal. Its image list reads back as the client's pieces and then the record paths |
| Moderation.UpdatePublished | data/ModerRequestsController.cs:116-182 | an update changes only the catalog and the file records, and keeps the number of catalog rows |
| Moderation.UpdateGuards | data/ModerRequestsController.cs:116-128 | an update is refused exactly when the body or login is missing, a different id has the NameDWS, or the id is unknown |
| Moderation.UpdateFields | data/ModerRequestsController.cs:132-176 | only the row with the id changes, and in it exactly the seven editable fields. The id, NameDWS and group stay, and the new list reads back as the client's list and then the missing record paths |
| Moderation.RemovePublished | data/ModerRequestsController.cs:261-279 | an accepted removal takes one row out of the catalog and changes nothing else |
| Moderation.RemovePendingMod | data/ModerRequestsController.cs:281-299 | an accepted removal takes one row out of the pending mods and changes nothing else |
| Moderation.RemovePublishedSpec | data/ModerRequestsController.cs:265-276 | a removal takes out exactly the first row with the id, and only when the owner check passes; a "Mods by X" group passes only for the empty login |
| Moderation.RemovePendingSpec | data/ModerRequestsController.cs:285-296 | the same for pending mods, including those whose developer the create handler wrote |
| Moderation.InsertByDate | data/ModerRequestsController.cs:359-365 | inserting a line keeps the same lines, plus the new one |
| Moderation.NewestFirst | data/ModerRequestsController.cs:359-365 | the sorted list holds the same lines |
| Moderation.InsertByDateSorted | data/ModerRequestsController.cs:359-365 | inserting into a newest-first list keeps it newest first |
| Moderation.NewestFirstSpec | data/ModerRequestsController.cs:359-365 | the dashboard list is newest first and is a permutation of the projected lines |
| Moderation.DashboardMatchesDetails | data/ModerRequestsController.cs:301-373 | the dashboard shows the same lines as the earnings view, newest first |
| Moderation.TransferShowsInEarnings | data/ModerRequestsController.cs:319-325 | a purchase transfer shows up as one more earnings line: the whole amount, under the mod whose id is the item reference |
| Moderation.DepositShowsSeventyPercent | data/ModerRequestsController.cs:319-325 | a deposit line shows the net minus the commission, 70% of the deposit |
| Moderation.SetHook | data/ModerRequestsController.cs:397-430 | a webhook update changes only the webhooks and keeps their number |
| Moderation.SetHookPermission | data/ModerRequestsController.cs:420-425 | an update is refused unless the hook's mod belongs to the caller's group; when it passes, only that hook's three Discord URLs change |
| Moderation.CreateAMod | data/ModerRequestsController.cs:59-114 | the database is changed exactly as the create function says, and left alone on a refusal |
| Moderation.MarkUnlinked | data/ModerRequestsController.cs:134-166 | the unlinking loop marks exactly the records the update function unlinks |
| Moderation.UnlinkedStep | data/ModerRequestsController.cs:143-150 | one more listed path off the client's list marks exactly the first saved record with it; a path on the list marks nothing |
| Moderation.MergeImages | data/ModerRequestsController.cs:161 | the merge loop builds exactly the client's list followed by the new paths |
| Moderation.UpdateMod | data/ModerRequestsController.cs:116-182 | the database is changed exactly as the update function says, and left alone on a refusal |
| Moderation.RemoveMod | data/ModerRequestsController.cs:261-279 | the database is changed exactly as the removal function says |
| Moderation.RemovePend | data/ModerRequestsController.cs:281-299 | the database is changed exactly as the pending removal function says |
| Moderation.SetWebHook | data/ModerRequestsController.cs:397-430 | the database is changed exactly as the webhook function says |

## Left out

- **The timer loop of the refresher** (the delay, cancellation, and catching and logging errors) is not modelled. The model covers one run of `HandleSubscription` followed by `HandleMods`, with the day passed in as a number.
- **Storage.** Queries on the store, persistence and the atomicity of saving are not modelled. The tables are values that change in place, in program order. A handler that throws keeps what happened before the throw, and a refused upload discards its request's changes, as an unsaved context would. The balance handler's own mid-operation saves are not modelled separately.
- **Money and dates.**
  - Floating-point balances are `real`, with no rounding; the 15% commission is exact.
  - Dates are whole day numbers. The local/UTC clock mix and the time of day are not modelled, and "today" is a parameter.
- **Integer width and lookups.**
  - Counts in the stock are unbounded. The 32-bit wrap of a count incremented past `int.MaxValue` is not modelled, and the round-trip lemmas require 32-bit counts.
  - `SingleOrDefault` throws on duplicate matches; it is modelled as the first match.
  - `ToDictionary` throws on duplicate ids; that is not modelled.
- **Text.**
  - White space is the ASCII set .NET accepts around numbers (tab through carriage return, and space). Other Unicode white space is not modelled.
  - `ToLower` only changes ASCII letters.
- **Order and identities.**
  - `Dictionary` enumeration order is unspecified, so the stock is written with ids ascending.
  - Store-generated identities of new purchase, subscription and profit rows are not modelled. The id of a new pending mod is a parameter.
  - The join behind the webhook lookup is taken in table order.
- **Missing request bodies.** The purchase handlers' `Data == null` check is not modelled: the request's ids and names are parameters.
- **Other upload code.** The second upload endpoint (by numeric mod id), `UpdatePend`, and the file controller for `update.zip` updates are not part of this model.
- **File and image I/O.**
  - Image transcoding, file writes and deletes, and directory creation are not modelled.
  - Three facts about the file system are parameters: the number of files already in the upload folder, whether a delete path stays inside the public folder (the `Path.GetFullPath` test), and whether the file exists.
  - `Path.Combine` is concatenation with '\'. Rooted names and names that already end in a separator are not modelled.
  - `Path.GetRelativePath` is the path after the public folder.
- **Polling in the editors' handlers.** The `Task.Delay` polling in the create and update handlers is not modelled. The model reads the file records once, as the saved table, with no upload running at the same time. The disk deletes in `UpdateMod` are left out as file I/O.
- **Other parts of the server.** The read-only listing endpoints, server administration, authentication (trusting the `UserName` header), the log socket, the health checks, the password and HMAC hashing, and host setup are not part of this model.
- **Server lists that do not read.** `int.Parse` on a server list that does not read (for example "" after its last id was removed) is modelled as an error outcome, not as a precondition. The model's own steps can produce such a list.
- **Sorting.** `Moderation.NewestFirst` is proved newest first and a permutation. It is written as stable, but its stability is not proved.
- **Webhooks.** The webhook handler's unused mod-name parameter is not modelled.
- Uploads.AddImageAppends: the read-back list is proved only when the entries hold no '!', since such an entry can split differently.
- Uploads.DropImageRemovesFirst: the same restriction to entries without '!'.
- Moderation.CreatePendingRow: the read-back list is proved only when the entries hold no '!'.
- Moderation.UpdateFields: the read-back list is proved only when the entries hold no '!'.
- Moderation.UnlinkSurvivors: proved only for tables where no two records of a mod share a path. `Moderation.DuplicateRecordsHalved` shows what happens with duplicates.
- Uploads.StoreAllRecords: needs saved paths without '\' (paths stored by earlier uploads).
- Uploads.UploadRecordsNeverMatch: needs saved paths without '\' (paths stored by earlier uploads).
- ClaimCodec.DecCount: stated only for stocks whose counts are all at least 1. `Decode` also reads a stored entry such as "5[0]" or "5[-2]", and on such an entry only `ClaimCodec.Dec` describes the result (the id is dropped). The handlers' own writes keep counts at least 1 (`Allocation.ClaimsAfterPositive`, `ClaimCodec.IncKeepsPositive`).
- ClaimCodec.DecUndoesInc: the same restriction to stocks whose counts are all at least 1.
- ClaimCodec.DecAllCount: the same restriction to stocks whose counts are all at least 1.
- Allocation.ClaimsAfterCount: the same restriction to stocks whose counts are all at least 1.
- Refresher.ReleaseClaimEffect: the per-id count after a released slot is stated only for a stored stock whose counts are all at least 1.
