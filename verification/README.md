# WhatsApp mailbox: auto-reply engine and business-logic fragments, in Dafny

This project models the decision logic of a WhatsApp mailbox back end
(Node/TypeScript, Prisma) and proves properties of it. It has two parts.

**The auto-reply engine** (`src/services/auto-reply.service.ts`):
- the **matcher** (`findBestMatch`) scores every active quick reply against
  an incoming message. Five strategies are tried in a fixed order: exact
  text, exact words, containment, keyword overlap, and Levenshtein
  fuzziness. The best score wins if it reaches the 0.5 floor.
- the **suppression ledger** (`shouldSkipAutoReply`, `markAutoReplySent`,
  `cleanupOldEntries`) remembers the last auto-reply sent to each
  (user, contact) pair. It enforces a 5000 ms cooldown and a 60000 ms
  no-repeat window.
- the **orchestrator** (`processAutoReply`) matches, checks the ledger, and
  records what it sends.

**The arithmetic and decisions inside the CRUD services and repositories**:
- invoice totals, balances and payment statuses;
- shop orders, invoices and payments;
- order totals and stock deduction;
- stock adjustment and the low-stock filter;
- daily sequence numbers (`INV-`, `ORD-` and `TKT-` followed by
  `yyyymmdd-NNNN`);
- list paging;
- contact validation, duplicate grouping, merge and bulk delete;
- the expense summary.

Everything is pure. The ledger is a `map<(string, string), Entry>` passed in
and returned. The clock (`Date.now()`) is the parameter `now`. Each database
read is a parameter:
- the current record, or `None` when it is missing;
- the payments read back;
- the last number of the day;
- the row count.

Each database write is the returned value. Money is `real` and is computed
exactly. Failures are `Result` values whose error carries the source's
message. An exception the source throws with a bare `new Error(...)` becomes
`Thrown(message)`.

Modules and files:

| module | file | models |
|---|---|---|
| `Common` | common.dfy | `Option`, `Result`, JS `x \|\| d` defaults, sums, `String(n)`, `padStart`, `parseInt` |
| `Text` | text.dfy | `\s`, `\w`, `toLowerCase`, `trim`, `split(/\s+/)`, the `replace` calls, `includes` |
| `Levenshtein` | levenshtein.dfy | `levenshteinDistance` (recursive definition and the matrix method), `calculateSimilarity` |
| `Matcher` | matcher.dfy | `extractKeywords`, the five strategies, the sort and the floor of `findBestMatch` |
| `Ledger` | ledger.dfy | `cleanupOldEntries`, `shouldSkipAutoReply`, `markAutoReplySent` |
| `AutoReply` | autoreply.dfy | `processAutoReply` |
| `Scenarios` | scenarios.dfy | sample conversations of `test-auto-reply.js` |
| `Paging` | paging.dfy | `page`/`limit` in the services, `skip`/`take` in the repositories |
| `Numbering` | numbering.dfy | `getNext{Invoice,Order,Ticket}Number`, the shop's count-based numbers |
| `Invoices` | invoices.dfy | `invoice.service.ts` |
| `InvoiceRepo` | invoice_repo.dfy | `addPayment` of `invoice.repository.ts` |
| `Shop` | shop.dfy | `createOrder`, `createInvoice` and `recordPayment` of `shop.service.ts` |
| `Orders` | orders.dfy | `order.service.ts` `createOrder`, stock deduction in `order.repository.ts` |
| `Products` | products.dfy | `adjustStock` and the low-stock filter of `product.repository.ts` |
| `Contacts` | contacts.dfy | `contact.service.ts` |
| `Expenses` | expenses.dfy | `getSummary` of `expense.repository.ts` |

## Model

| member | source | states |
|---|---|---|
| `Common.OrInt` | src/services/invoice.service.ts:109-110 | `x \|\| d` on a number: the value when present and non-zero, otherwise the default |
| `Common.OrZero` | src/services/invoice.service.ts:53 | `x \|\| 0` on an amount: the value when present, otherwise 0 |
| `Common.OrStr` | src/services/invoice.service.ts:186 | `x \|\| d` on a string: the value when present and non-empty, otherwise the default |
| `Common.NatToDigits` | src/repositories/invoice.repository.ts:85 | `String(n)` for n ≥ 0: a non-empty digit string whose value is n, with no leading zero unless n is 0 |
| `Common.IntToString` | src/services/shop.service.ts:175 | `String(n)` for any integer: the digits of n, or '-' followed by the digits of -n |
| `Common.PadStart` | src/repositories/invoice.repository.ts:85 | `padStart(n, c)`: length max(n, \|s\|) so it never truncates, `s` at the end, `c` in front |
| `Common.PaddedDigitsValue` | src/repositories/invoice.repository.ts:85 | zero-padding a number's digits does not change the value they read back as |
| `Common.CanonicalDigits` | src/repositories/invoice.repository.ts:84-85 | a digit string with no leading zero is exactly `String` of its value |
| `Common.ParseIntOfDigits` | src/repositories/invoice.repository.ts:84 | `parseInt` of a non-empty digit string is its decimal value |
| `Text.LowerChars` | src/services/auto-reply.service.ts:172 | `toLowerCase` maps every character on its own: A–Z to a–z, everything else unchanged |
| `Text.LowerIdempotent` | src/services/auto-reply.service.ts:183 | lower-casing twice is lower-casing once, and leaves no capital letter |
| `Text.Trim` | src/services/auto-reply.service.ts:172 | `trim` is a slice of the input with only white space cut at both ends; the result has no white space at either end; it is empty exactly when the input is blank |
| `Text.SplitWs` | src/services/auto-reply.service.ts:173-174 | `split(/\s+/)` gives at least one part, and no part holds white space |
| `Text.SplitWsJoins` | src/services/auto-reply.service.ts:173-174 | joining the parts with single spaces gives the text with each maximal white-space run collapsed to one space, so the text is cut at the runs and nowhere else |
| `Text.SplitWsOfWord` | src/services/auto-reply.service.ts:184 | a text with no white space splits into itself alone |
| `Text.SplitWsTwo` | src/services/auto-reply.service.ts:184 | two words joined by one space split into those two words |
| `Text.SplitLosesOnlySpace` | src/services/auto-reply.service.ts:173-174 | concatenating the parts gives back the text with its white space removed, so the split drops nothing else |
| `Text.StripNonWord` | src/services/auto-reply.service.ts:175 | `replace(/[^\w]/g, '')` leaves only word characters, keeps every word character of the input, and never lengthens; one character is kept exactly when it is a word character |
| `Text.StripNonWordAppend` | src/services/auto-reply.service.ts:175 | stripping distributes over concatenation, so the result is the input's word characters in their order |
| `Text.StripNonWordOfWord` | src/services/auto-reply.service.ts:175 | a word made of word characters only is left unchanged |
| `Text.BlankNonWord` | src/services/auto-reply.service.ts:152 | `replace(/[^\w\s]/g, ' ')` keeps the length, keeps every word and space character, and leaves only those |
| `Text.Includes` | src/services/auto-reply.service.ts:199 | `s.includes(t)` holds exactly when `t` occurs at some position of `s` |
| `Text.IncludesNeedsChars` | src/services/auto-reply.service.ts:199 | an included text is no longer than the other and all its characters occur there |
| `Text.NotIncludedByChar` | src/services/auto-reply.service.ts:199 | a text holding a character the other lacks is not included in it |
| `Levenshtein.DistBounds` | src/services/auto-reply.service.ts:92-121 | distance to the empty string is the other length; the distance is at most the longer length and at least the difference of lengths |
| `Levenshtein.DistSelf` | src/services/auto-reply.service.ts:92-121 | a string is at distance 0 from itself |
| `Levenshtein.DistSymmetric` | src/services/auto-reply.service.ts:92-121 | the distance is symmetric |
| `Levenshtein.DistZeroIff` | src/services/auto-reply.service.ts:92-121 | the distance is 0 exactly when the strings are equal |
| `Levenshtein.DistAtLeastMissing` | src/services/auto-reply.service.ts:92-121 | each character of the second string that the first lacks costs at least one edit |
| `Levenshtein.DistStep` | src/services/auto-reply.service.ts:109-117 | each inner cell is the least of deletion + 1, insertion + 1 and substitution + cost |
| `Levenshtein.FillRow` | src/services/auto-reply.service.ts:110-117 | the inner loop fills row i with the distances of the prefixes |
| `Levenshtein.LevenshteinDistance` | src/services/auto-reply.service.ts:92-121 | the matrix method, early returns included, returns exactly the recursive edit distance |
| `Levenshtein.Similarity` | src/services/auto-reply.service.ts:126-132 | `calculateSimilarity` lies in [0, 1], is 1 for two empty strings, and is 1 exactly when the strings are equal |
| `Levenshtein.SimilarityAtMost` | src/services/auto-reply.service.ts:126-132 | characters missing from either side lower the similarity proportionally |
| `Matcher.KeepKeywords` | src/services/auto-reply.service.ts:154 | the filter keeps exactly the words longer than 2 that are not common words, and never adds one |
| `Matcher.KeepKeywordsAppend` | src/services/auto-reply.service.ts:150-154 | the filter distributes over concatenation, so keywords keep the words' order and every repeat |
| `Matcher.Words` | src/services/auto-reply.service.ts:173-175 | one word per part of the split, in order: word i is part i with its non-word characters removed |
| `Matcher.NotWordHitBy` | src/services/auto-reply.service.ts:193 | one shortcut word missing from the message defeats the word strategy |
| `Matcher.CommonKeywords` | src/services/auto-reply.service.ts:208 | the shared keywords are exactly the message keywords that the shortcut also has |
| `Matcher.CommonKeywordsAppend` | src/services/auto-reply.service.ts:208-210 | the selection distributes over the message keywords, so their order and repeats are kept, as the ratio's numerator counts them |
| `Matcher.KeywordRatio` | src/services/auto-reply.service.ts:207-211 | a ratio exists exactly when some keyword is shared, and then lies in (0, 1] |
| `Matcher.BestSim` | src/services/auto-reply.service.ts:223-230 | the best similarity of a word against shortcut words of length ≥ 3, attained by one of them unless 0 |
| `Matcher.FuzzyScore` | src/services/auto-reply.service.ts:219-231 | `maxFuzzyScore` is the maximum similarity over all pairs of words of length ≥ 3, attained by a pair unless 0 |
| `Matcher.Score` | src/services/auto-reply.service.ts:186-236 | 1.0 exact exactly when the texts are equal; otherwise 0.95 exact exactly on a word hit; otherwise a containment scores 0.85 · shorter/longer length; a keyword entry is 0.75 · the keyword ratio, with the ratio ≥ 0.4; a fuzzy entry is 0.65 · the best word-pair similarity, in [0.4875, 0.65]; later strategies only when earlier ones missed |
| `Matcher.ScoreInUnit` | src/services/auto-reply.service.ts:186-236 | every score lies in [0, 1] |
| `Matcher.KeywordHitStopsFuzzy` | src/services/auto-reply.service.ts:210-215 | a keyword ratio ≥ 0.4 ends the candidate with a keyword entry, below the floor exactly when the ratio is below 2/3, and fuzzy is never tried |
| `Matcher.FuzzyStage` | src/services/auto-reply.service.ts:218-236 | with no earlier hit and no shared keyword or a keyword ratio below 0.4, the entry is 0.65 · best similarity when that is ≥ 0.75, and otherwise there is none |
| `Matcher.Entries` | src/services/auto-reply.service.ts:180-237 | at most one entry per candidate, each from an eligible reply with its own score, and every scoring candidate contributes one |
| `Matcher.EntriesAppend` | src/services/auto-reply.service.ts:180-237 | entries are produced candidate by candidate in input order |
| `Matcher.BestIndex` | src/services/auto-reply.service.ts:244-247 | a stable descending sort puts first the earliest entry with the highest score |
| `Matcher.Choose` | src/services/auto-reply.service.ts:240-254 | the chosen entry has the highest score, comes first among the ties, and is at least 0.5; with none chosen every entry is below 0.5 |
| `Matcher.FindBestMatch` | src/services/auto-reply.service.ts:160-264 | null for a blank message or no eligible reply; a match is an eligible reply with its true score in [0.5, 1], and no entry scores higher |
| `Matcher.SingleReply` | src/services/auto-reply.service.ts:160-264 | with one eligible reply the result is its entry when that reaches 0.5, and null otherwise |
| `Matcher.BelowFloorNeverChosen` | src/services/auto-reply.service.ts:246-254 | a reply whose own entry is missing or below 0.5 is never returned |
| `Matcher.LowerKeepsBlank` | src/services/auto-reply.service.ts:161-172 | lower-casing neither creates nor removes a blank message |
| `Matcher.OnlyExactIsPerfect` | src/services/auto-reply.service.ts:186-236 | only the exact strategy scores 1.0 |
| `Matcher.ChooseFirstPerfect` | src/services/auto-reply.service.ts:244-247 | the first 1.0 entry wins over any later one |
| `Matcher.ChooseExact` | src/services/auto-reply.service.ts:186-190 | the first eligible reply whose shortcut equals the message is chosen with score 1.0 |
| `Matcher.ExactMatchWins` | src/services/auto-reply.service.ts:172-190 | `findBestMatch` returns that reply as an exact match with score 1.0 |
| `Ledger.Cleanup` | src/services/auto-reply.service.ts:30-41 | the sweep keeps exactly the entries at most 60000 ms old at `now`, and keeps them unchanged |
| `Ledger.CleanupComposes` | src/services/auto-reply.service.ts:30-41 | sweeping at t1 and then at t2 ≥ t1 is sweeping once at t2 |
| `Ledger.ShouldSkip` | src/services/auto-reply.service.ts:46-76 | the ledger is swept; the reply is sent exactly when the pair has no surviving entry, or it is ≥ 5000 ms old and either names another reply or is ≥ 60000 ms old |
| `Ledger.MarkSent` | src/services/auto-reply.service.ts:81-87 | the pair's entry becomes (message timestamp, reply id) and no other pair changes |
| `AutoReply.ProcessAutoReply` | src/services/auto-reply.service.ts:269-298 | no match leaves the ledger as it was; a reply goes out exactly when there is a match and the skip check passes, and it carries the match's reply, type and score |
| `AutoReply.WritesOnlyOnReply` | src/services/auto-reply.service.ts:269-298 | either way the ledger loses only stale entries and keeps every fresh one; without a reply nothing is written; with one only the pair's entry is written |
| `AutoReply.ReplacementRespectsLimits` | src/services/auto-reply.service.ts:46-87 | a surviving entry is replaced only by one ≥ 5000 ms later, and by the same reply only ≥ 60000 ms later |
| `AutoReply.CooldownAfterReply` | src/services/auto-reply.service.ts:54-63 | after a reply, any message from the same pair inside the cooldown gets none |
| `AutoReply.SameReplySuppressed` | src/services/auto-reply.service.ts:65-73 | the same best match inside the duplicate window gets no reply, and the entry stays |
| `Scenarios.PaymentIsExact` | test-auto-reply.js:45 | "payment" against the sample replies is the payment reply, exact, score 1.0 |
| `Scenarios.HelloScore` | src/services/auto-reply.service.ts:206-216 | "hello bhai" against "hello greeting" gets one keyword entry scoring 0.375 |
| `Scenarios.HelloNeverGreets` | test-auto-reply.js:51 | whatever replies are offered, "hello bhai" never returns the "hello greeting" reply |
| `Scenarios.RepeatsSuppressed` | test-auto-reply.js:115-137 | the same matching text three times inside one minute is answered once |
| `Paging.CeilDiv` | src/services/invoice.service.ts:125 | `Math.ceil(a / b)`: the least integer not below the exact quotient |
| `Paging.ServiceQuery` | src/services/invoice.service.ts:109-111 | page and limit default to 1 and 20 when missing or 0, and are otherwise taken as given |
| `Paging.NextPageFollows` | src/services/order.service.ts:99-101 | the next page's offset is this page's offset plus the limit |
| `Paging.Report` | src/services/invoice.service.ts:123-126 | the pagination echoes total, page and limit, and `totalPages` is the least page count covering the total |
| `Paging.LastPageHoldsLastItem` | src/services/order.service.ts:99-116 | the last item is on the last reported page, and the page after it starts past the end |
| `Paging.RepositoryWindow` | src/repositories/invoice.repository.ts:49-50 | `skip` defaults to 0; a missing or zero `take` becomes 20; any other `take`, negative included, becomes min(take, 100) |
| `Paging.WindowIdempotent` | src/repositories/service-ticket.repository.ts:48-49 | a window fed back as its own request is unchanged |
| `Paging.LargeLimitSkipsRows` | src/services/order.service.ts:99-111 | with a limit above 100, position 100 is on no page |
| `Paging.CappedServiceQuery` | src/services/invoice.service.ts:109-111 | the offset computed with the page size the repository honours |
| `Paging.EveryRowOnOnePage` | src/services/invoice.service.ts:109-125 | with the capped size, every position below the total is on exactly one reported page |
| `Numbering.LastFour` | src/repositories/invoice.repository.ts:84 | `slice(-4)`: the last min(\|s\|, 4) characters |
| `Numbering.NaNSuffixPadded` | src/repositories/invoice.repository.ts:84-85 | when the last four characters start with no digit, the suffix is `String(NaN)` padded: "0NaN" |
| `Numbering.NextDailyNumber` | src/repositories/invoice.repository.ts:73-89 | the result starts with the prefix followed by at least four characters; the first of the day is prefix + "0001" |
| `Numbering.FirstOfDay` | src/repositories/service-ticket.repository.ts:86 | the first number of the day is number 1 |
| `Numbering.NextFromValue` | src/repositories/order.repository.ts:77-80 | after a number whose last four characters read v, the next is number v + 1 |
| `Numbering.NextAfter` | src/repositories/order.repository.ts:67-83 | after number n ≤ 9999 comes number n + 1 |
| `Numbering.NextAfterLarge` | src/repositories/service-ticket.repository.ts:81-84 | after number n ≥ 1000 comes number (n mod 10000) + 1, so the count wraps after 9999 |
| `Numbering.CountNumber` | src/services/shop.service.ts:174-175 | the kind, a dash, then at least six characters |
| `Numbering.CountNumberReadsBack` | src/services/shop.service.ts:288-289 | the characters after the dash are digits that read back as count + 1 |
| `Numbering.CountNumberInjective` | src/services/shop.service.ts:174-175 | different counts give different numbers |
| `Invoices.ItemTotal` | src/services/invoice.service.ts:38-42 | the line is q · p · (1 + rate/100) − discount, and just q · p with no tax and no discount |
| `Invoices.TotalIsSumOfItemTotals` | src/services/invoice.service.ts:38-58 | the invoice total equals the sum of the item totals |
| `Invoices.CalculateInvoiceTotals` | src/services/invoice.service.ts:44-58 | the loop gives the column sums of subtotal, tax and discount, and a total equal to the sum of the item totals |
| `Invoices.LineOf` | src/services/invoice.service.ts:82-90 | a stored line carries the item total, and a product link only for a non-empty id |
| `Invoices.LinesOf` | src/services/invoice.service.ts:82-90 | one stored line per item, in order |
| `Invoices.LinesAddUp` | src/services/invoice.service.ts:82-90 | the stored lines add up to the sum of the item totals |
| `Invoices.CreateInvoice` | src/services/invoice.service.ts:60-95 | rejected exactly when there are no items; otherwise DRAFT, paid 0, balance equal to the total, and lines adding up to the total |
| `Invoices.UpdateInvoice` | src/services/invoice.service.ts:135-166 | not found for a missing invoice; number, status and paid amount are kept; without items totals, balance and lines are kept; with items balance = new total − paid |
| `Invoices.UpdateKeepsBalance` | src/services/invoice.service.ts:147-151 | an update keeps balance = total − paid whenever it held before or new items are given |
| `Invoices.RecordPayment` | src/services/invoice.service.ts:175-194 | not found, then an amount ≤ 0 rejected; the payment carries the invoice's contact, the amount, and the method defaulting to CASH |
| `InvoiceRepo.StatusAfter` | src/repositories/invoice.repository.ts:149-151 | PAID when nothing is owed, PARTIALLY_PAID when something owed and something paid, otherwise unchanged |
| `InvoiceRepo.Settle` | src/repositories/invoice.repository.ts:147-156 | the balance is max(0, total − paid), never negative and 0 exactly when paid ≥ total; only paid, balance and status change |
| `InvoiceRepo.AddPayment` | src/repositories/invoice.repository.ts:135-161 | as written: the paid amount is the earlier payments plus twice the new one |
| `InvoiceRepo.AddPaymentBreaksConsistency` | src/repositories/invoice.repository.ts:137-146 | after any non-zero payment the stored paid amount differs from the sum of the payments on record |
| `InvoiceRepo.HalfPaymentSettles` | src/repositories/invoice.repository.ts:146-151 | a first payment of 50 on a total of 100 marks the invoice PAID with balance 0 |
| `InvoiceRepo.AddPaymentOnce` | src/repositories/invoice.repository.ts:146-156 | corrected: the paid amount is the sum of the payments on record, and paid and balance agree with it |
| `InvoiceRepo.PaymentReducesBalance` | src/repositories/invoice.repository.ts:146-156 | corrected: a positive payment raises the paid amount by exactly itself, never raises the balance, and lowers it by itself unless it overpays |
| `InvoiceRepo.PayingBalanceSettles` | src/repositories/invoice.repository.ts:149-151 | corrected: paying the balance settles the invoice; less leaves it PARTIALLY_PAID |
| `InvoiceRepo.Pay` | src/services/invoice.service.ts:175-190 | as written: a payment passes exactly when the service's guard passes it, with the guard's errors; the repository then counts it twice, so the stored paid amount never matches the payments on record |
| `InvoiceRepo.PayOnce` | src/services/invoice.service.ts:175-190 | corrected: the same guard and errors, then the payment is counted once and the invoice agrees with its payments |
| `Shop.LinesOf` | src/services/shop.service.ts:179-186 | each line keeps its item, with total q · p − discount |
| `Shop.ProcessItems` | src/services/shop.service.ts:178-186 | the running-subtotal loop gives those lines and the sum of their totals |
| `Shop.MakeBill` | src/services/shop.service.ts:170-189 | "Shop not found" exactly when the shop is missing; tax = subtotal · rate; total = subtotal + tax − discount + shipping |
| `Shop.CreateOrder` | src/services/shop.service.ts:155-214 | fails exactly when the shop is missing; an order number starts with "ORD-" |
| `Shop.CreateInvoice` | src/services/shop.service.ts:270-327 | fails exactly when the shop is missing; an invoice number starts with "INV-", and there is no shipping |
| `Shop.InvoicePricesLikeOrder` | src/services/shop.service.ts:292-303 | an invoice of the same items and discount has the order's lines, subtotal, tax and total without shipping |
| `Shop.UntaxedTotalIsItemSum` | src/services/shop.service.ts:302-303 | with no tax and no discount, the invoice total is the sum of the lines |
| `Shop.OrderNumbersDistinct` | src/services/shop.service.ts:174-175 | different order counts give different order numbers |
| `Shop.ApplyPayment` | src/services/shop.service.ts:409-425 | paid = old + amount; PAID when the total is reached, SENT while something is paid, otherwise unchanged; the date is stamped whenever the new status is PAID |
| `Shop.PaymentsCompose` | src/services/shop.service.ts:410-416 | two payments leave the same paid amount and status as their sum paid at once, when something is paid in the end |
| `Shop.StaysPaid` | src/services/shop.service.ts:411-416 | a fully paid invoice stays PAID under further non-negative payments |
| `Shop.RecordPayment` | src/services/shop.service.ts:385-438 | a named invoice gets the payment, and a named order is marked PAID whatever the amount |
| `Orders.LineOf` | src/services/order.service.ts:42-53 | a line's total is quantity · unit price, linked to the product only for a non-empty id |
| `Orders.LinesOf` | src/services/order.service.ts:42-53 | one line per item, in order |
| `Orders.CreateOrder` | src/services/order.service.ts:33-85 | rejected exactly when there are no items; tax 0; total = subtotal + fee − discount; defaults DELIVERY and ORDER_PAYMENT_PENDING |
| `Orders.DeductLine` | src/repositories/order.repository.ts:98-119 | a linked, existing product drops to max(0, stock − q) with an OUT movement of q; anything else changes nothing |
| `Orders.DeductStock` | src/repositories/order.repository.ts:93-121 | the set of products is unchanged |
| `Orders.DeductionIsOutAdjustment` | src/repositories/order.repository.ts:99-106 | deducting a line is `adjustStock` OUT of its quantity |
| `Orders.DeductsOrderedTotal` | src/repositories/order.repository.ts:93-121 | a product ends at max(0, stock − the total quantity ordered of it) |
| `Orders.UnorderedUntouched` | src/repositories/order.repository.ts:98-101 | a product no line names keeps its stock |
| `Orders.MovementsFollowLines` | src/repositories/order.repository.ts:108-118 | one OUT movement per linked, existing line, in order, with the requested quantity |
| `Products.AdjustStock` | src/repositories/product.repository.ts:102-137 | "Product not found" exactly when missing; IN gives max(0, stock + q), OUT gives max(0, stock − q), ADJUSTMENT gives max(0, q); never negative; others unchanged; the transaction keeps the request |
| `Products.AdjustmentIdempotent` | src/repositories/product.repository.ts:118-123 | setting the same absolute stock twice is setting it once |
| `Products.InThenOutRestores` | src/repositories/product.repository.ts:115-123 | receiving then issuing the same non-negative quantity restores the stock |
| `Products.LowStock` | src/repositories/product.repository.ts:77 | the filter keeps exactly the products at or below their alert level |
| `Products.LowStockAppend` | src/repositories/product.repository.ts:77 | filtering distributes over concatenation, so order is kept |
| `Products.LowStockIdempotent` | src/repositories/product.repository.ts:77 | filtering twice is filtering once |
| `Products.ListProducts` | src/repositories/product.repository.ts:72-81 | with lowStock, the filtered page and its own length as total; otherwise the page and the count |
| `Products.LowStockTotalIsPageLocal` | src/repositories/product.repository.ts:72-79 | with lowStock the total never exceeds the page size |
| `Contacts.PhoneIsNumber` | src/services/contact.service.ts:54-57 | a phone is accepted exactly when it is `String(n)`, optionally after '+', for 10 ≤ n < 10^15 |
| `Contacts.NumberIsValidPhone` | src/services/contact.service.ts:54-55 | every such number is accepted, with and without '+' |
| `Contacts.EmailIsShape` | src/services/contact.service.ts:121-125 | an email is accepted exactly when it is a + "@" + b + "." + c with non-empty parts free of white space and '@' |
| `Contacts.ValidEmailHasShape` | src/services/contact.service.ts:122 | an accepted email splits into those three parts |
| `Contacts.ShapeIsValidEmail` | src/services/contact.service.ts:122 | three such parts always form an accepted email |
| `Contacts.EmailHasOneAt` | src/services/contact.service.ts:122 | an accepted email holds exactly one '@' |
| `Contacts.CreateContact` | src/services/contact.service.ts:51-70 | a bad phone fails validation; a known phone conflicts; otherwise exactly the new contact is added |
| `Contacts.CreateKeepsPhonesUnique` | src/services/contact.service.ts:59-63 | creating keeps every phone unique in the store |
| `Contacts.UpdateContact` | src/services/contact.service.ts:113-133 | not found first; a given, non-empty, malformed email fails; otherwise every given field replaces the stored one (a nullable field may be cleared), and only the id is always kept |
| `Contacts.UpdateNothing` | src/services/contact.service.ts:113-130 | an update that gives no field returns the stored contact |
| `Contacts.UpdateSkipsPhoneChecks` | src/services/contact.service.ts:113-130 | an update takes any phone number unchecked, even one another contact has, and clearing the email passes; storing the result breaks phone uniqueness |
| `Contacts.BulkDelete` | src/services/contact.service.ts:205-217 | exactly the listed ids are removed; the count is the number of distinct listed ids that existed, at most the number listed |
| `Contacts.FindDuplicates` | src/services/contact.service.ts:219-239 | the groups of the first 1000 contacts |
| `Contacts.GroupByPhone` | src/services/contact.service.ts:221-229 | the map holds exactly the phones seen, in first-seen order, each with its contacts in order |
| `Contacts.GroupsSound` | src/services/contact.service.ts:231-236 | each group is a seen phone with all its contacts, and there are at least two of them |
| `Contacts.GroupsComplete` | src/services/contact.service.ts:231-236 | every seen phone with at least two contacts has its group |
| `Contacts.PhonesInOrderComplete` | src/services/contact.service.ts:223-229 | every contact's phone is a key |
| `Contacts.PhonesInOrderDistinct` | src/services/contact.service.ts:225-227 | each phone is a key once |
| `Contacts.DuplicatesExact` | src/services/contact.service.ts:219-239 | a phone has a group exactly when at least two contacts share it, and the group lists all of them |
| `Contacts.MergeFields` | src/services/contact.service.ts:248-259 | id and phone are the primary's; each of the six descriptive fields takes the secondary's value exactly when the primary's is empty and the secondary's is not; message and interaction counts are the sums, missing counted as 0 |
| `Contacts.MergeLosesNothing` | src/services/contact.service.ts:250-255 | each of the six fields keeps the primary's truthy value, takes the secondary's truthy value when the primary's is empty, and is truthy exactly when either side's is |
| `Contacts.MergeContacts` | src/services/contact.service.ts:241-271 | as written: primary not found, then secondary not found; otherwise the secondary is deleted |
| `Contacts.MergeWithSelfDeletes` | src/services/contact.service.ts:241-271 | as written, merging a contact with itself deletes it and returns nothing |
| `Contacts.MergeDistinct` | src/services/contact.service.ts:241-271 | corrected: a self-merge is refused; otherwise the primary gets the merged fields and the secondary is deleted |
| `Contacts.MergeDistinctKeepsStore` | src/services/contact.service.ts:241-271 | a merge keeps every other contact, keeps phones unique, and returns the stored primary |
| `Expenses.Selected` | src/repositories/expense.repository.ts:49-56 | exactly the expenses inside the optional inclusive date bounds |
| `Expenses.ByCategory` | src/repositories/expense.repository.ts:58-70 | one entry per category, in first-seen order, with that category's sum |
| `Expenses.GetSummary` | src/repositories/expense.repository.ts:48-72 | over the selected expenses: the sum of amounts, their count, and the category entries |
| `Expenses.Accumulate` | src/repositories/expense.repository.ts:61-65 | the loop's map holds exactly the categories seen, each with its sum, plus the running total |
| `Expenses.CategoriesDistinct` | src/repositories/expense.repository.ts:58-70 | each category appears once |
| `Expenses.CategoriesAddUp` | src/repositories/expense.repository.ts:58-70 | the category amounts add up to the total |

## Left out

- Prisma reads and writes, and `$transaction`. Records read are parameters and writes are returned values. Rows the model does not need are not kept: the payment row itself, order items and inventory transactions are returned rather than stored.
- The HTTP layer (routes, controllers, validation schemas), the logger, and the rate-limit middleware.
- Floating-point arithmetic: amounts are exact reals. Rounding, `NaN` amounts and `toFixed` are not modelled.
- Time: `Date.now()`, `new Date()` and `toISOString()` are parameters. The daily prefix takes the date text as given.
- The `try`/`catch` of `processAutoReply`: the modelled matcher and ledger cannot fail, so the "exception gives null" path has nothing to catch.
- Concurrent handlers sharing the module-level ledger: calls are sequential.
- The ledger key is the pair (userId, contactId), not the string `userId:contactId`. The two differ only when an id contains ':'.
- `\s` follows JavaScript's white-space set. `\w` and `toLowerCase` cover ASCII only, so letters outside ASCII are not lower-cased. Strings are sequences of Unicode characters, not of UTF-16 code units.
- Scenarios: only "payment", "hello bhai" and the repeated conversation are worked through. The other sample messages of `test-auto-reply.js` are not.
- test-auto-reply.js:51 expects "hello bhai" to reach "hello greeting". The keyword stage scores it 0.375 and the floor rejects it (`Scenarios.HelloNeverGreets`).
- test-auto-reply.js:129-133 expects a reply 5.1 s after the first. The same reply within 60 s is suppressed (`Scenarios.RepeatsSuppressed`).
- Sequence numbers: the "last number of the day" is a parameter. The database's descending string order that picks it is not modelled.
- Shop numbers: the row count is a parameter.
- Expense summary: `Object.entries` lists integer-like keys such as "10" first, in numeric order. The model keeps first-seen order for every category.
- Expense dates are integers. A date bound is given or absent.
- `createContact`: tags are not modelled. The repository's `create`, `update`, `delete` and `search` are not part of this model. Contacts are a map from id to contact, and `delete` is taken to fail, without effect, on a missing id. So `bulkDelete` counts the existing ids and ignores repeats.
- `Text.SplitWs`: its own contract gives only the non-empty result and the space-free parts. Where the text is cut is stated in `Text.SplitWsJoins`.
- `Contacts.UpdateContact`: an `id` inside the partial update is not modelled; the stored id is kept.
- `Contacts.CreateContact` requires the new id to be unused: the database generates it.
- `Contacts.FindDuplicates`: the search is taken to return the user's contacts in a fixed order, and the model keeps the first 1000.
- Invoice dates, notes, terms, reference numbers and payment dates pass through unchanged and are not modelled.
- The invoice service's `taxRate` is a percentage, while the shop's `taxRate` is a fraction. Both are modelled as written.
- Stock quantities and order quantities are integers, as the schema has them.
- `Orders.DeductsOrderedTotal`: requires a non-negative starting stock and non-negative quantities. A negative stock is clamped at the first deduction, so the closed form does not hold for it.
- `Shop.CreateOrder`: its own contract states only the failure and the number prefix. The pricing is stated once, in `Shop.MakeBill`.
- `Shop.CreateInvoice`: its own contract states only the failure, the number prefix and the absent shipping. The pricing is in `Shop.MakeBill`, compared with the order's in `Shop.InvoicePricesLikeOrder`.
- `Orders.DeductStock`: its own contract states only that the products stay the same. What it does to each product is in `Orders.DeductsOrderedTotal`, `Orders.UnorderedUntouched` and `Orders.MovementsFollowLines`.
- `Products.ListProducts`: the count and the page are parameters. Its total under lowStock is the page's own filtered length, as written, not a count over all products (`Products.LowStockTotalIsPageLocal`).
- Shop `recordPayment`: the payment row is not modelled. An order id that names no order makes the database update throw after the payment was created. The model only covers orders that exist.
- Invoice repository `addPayment` on a missing invoice: the payment is created and nothing else happens. The model takes the invoice as read.
- `Common.IntToString`: built from the digits of the absolute value. Numbers above 10^21, which JavaScript writes in exponent form, are not modelled.

## Findings

| source | as written | input that shows it | evidently intended | confidence | as-written member | corrected member |
|---|---|---|---|---|---|---|
| src/repositories/invoice.repository.ts:137-146 | the payment is created before the payments are read back, and its amount is then added a second time | a first payment of 50 on an invoice totalling 100 | paid amount 50, balance 50, status PARTIALLY_PAID | not executed | `InvoiceRepo.HalfPaymentSettles` | `InvoiceRepo.AddPaymentOnce` |
| src/services/order.service.ts:99-111 | the offset steps by the requested limit, while the repository caps each window at 100 rows | limit 200: page 1 shows rows 0-99 and page 2 starts at row 200 | the offset uses the capped page size, so every row is on exactly one page | not executed | `Paging.LargeLimitSkipsRows` | `Paging.EveryRowOnOnePage` |
| src/services/contact.service.ts:241-271 | nothing stops the primary and secondary from being the same contact | `mergeContacts(u, id, id)` | a self-merge is refused and the contact is kept | not executed | `Contacts.MergeWithSelfDeletes` | `Contacts.MergeDistinct` |
