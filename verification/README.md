# Verified model of the Mountain Breath shop

Mountain Breath is a small web shop: a Go backend over PostgreSQL and a React
frontend. This project models its hardest logic in Dafny and proves what the
shop relies on. `dafny verify dfyconfig.toml` checks everything.

## What is modelled

**The order ledger.** `Transactions` holds the tables the order transactions
share as one value (`Shop`) and says, transaction by transaction, what each does
to them: checkout, status and payment changes, the customer's own cancellation,
reorder, cart and code changes, shelf counts, account deletion. `Store` is the
same shop as a class with mutable tables; its methods take the code's steps one
at a time (locks aside), are proved equal to those functions and keep the class
invariant `Valid`. `Ledger` proves the invariant of every run of those
transactions: stock conserved and never negative, redemption rows exact,
timelines lawful, cash orders settled, one free first delivery an account.
`Effects` says table by table which transaction moves which row and by how much,
in terms of the rows themselves, and what every transaction answers. `History`
proves what runs can never undo, which edits can break a promo cap, and that
placing and cancelling cancel out.

**Many checkouts at once.** `Concurrency` splits `CreateOrder` into lock, read,
write and commit steps over a row-lock table; a schedule is any interleaving.
Every interleaving is proved equal to a serial run in finishing order, but for
the count of its code's redemptions each checkout goes by (`Serialisable`); no
circle of waiting checkouts can form (`NoWaitCycle`) and everybody can always
finish (`EverybodyCanFinish`). `CapRace` says when that count makes a difference.
`FlashSale` draws the consequences: n one-jar checkouts against k jars succeed
exactly min(n, k) times, and the once-per-customer index never has to refuse one.
`CartRaces` lets customers edit their carts meanwhile, and `CartSweeps` says what
of those edits a placed order sweeps away. `Workday` puts every other transaction
between the steps of the checkouts, and proves the books sound at every instant.

**The price.** `Pricing` says in closed form what each figure of a quote is,
proves the step-by-step calculator computes it, and proves the money laws:
balance, bounds, the free-shipping gap, and that under a percent code a bigger
basket lowers the goods payable by at most one minor unit. `Money` has the
per-market totals, `Preview` the second path to the same price, and the theorem
that the preview and the order agree. `PromoRules` compares the form check on a
code with the constraints of the tables it is written to.

**The rest.** `Facets` (the one-pass sidebar counts against the grid's own
query), `RateLimiter` (fixed windows with eviction), `Admins` and `AdminLoss`
(interleaved role changes and account deletions), `CartMerge` and `Wishlist` (the two cart
merges), `Newsletter` (the double opt-in), `Ico` (the icon container and a
reader for it), `Lifecycle` (the two state machines of an order).

## What the proofs found

- **Rate limit.** The comment says the worst case is twice the limit. In a
  half-open interval one span long the exact worst case is `2 * limit - 1`
  (`SlidingBound`, reached by `SlidingBoundIsReached`); twice the limit is
  reached only when both end instants count (`ClosedBound`,
  `ClosedBoundIsReached`). Sweeping changes no answer while the clock never runs
  back (`SweepIsInvisible`), and can when it does (`SweepShowsWhenTimeRunsBack`);
  that input needs the injected clock, since the default one is monotonic.
- **Last admin.** `DeleteAccount` locks the admin set only when the role it read
  says admin. An account read as a customer, promoted, and deleted after the
  other admin was demoted leaves no admin (`PromotedDeletionLosesLast`). The
  statement that can do it is characterised exactly (`StepKeepsAdmin`,
  `AlwaysAnAdmin`), and so are the sets of requests that some order of statements
  turns into a loss (`CanLoseLastIff`): an account asked to be deleted and to be
  promoted, every other admin asked to go, and, where that account is an admin
  already, a demotion of it with somebody to stand in.
- **Promo cap.** The comments promise that the lock on the code makes the cap a
  rule (backend/internal/store/promos.go:31-34, orders.go:163-167). But the
  redemptions are counted in the very query that waits for that lock
  (promos.go:35-39, orders.go:170-177), from the snapshot the query began with, so
  the count may be older than the lock. Two customers who have both counted before
  either commits both get the last redemption (`LastOneTwice`; a shop where it
  happens is `CapIsExceeded`), which no order of the two gives (`OneOfTwoAlone`).
  An interleaving is serial outright if and only if nobody is misled that way
  (`SerialIff`), and a cap is kept if and only if nobody misled places an order
  (`CapIff`). Counting in a query of its own after the lock would leave nobody
  misled. With everything else going on as well, a cap is broken at exactly two
  kinds of moment: such a commit, and an edit that undercuts it (`CapAllDay`).
- **Lost quantities.** A checkout does not lock the cart lines it reads. A new
  line has to wait for it, since its foreign keys ask for the customer's row, so no
  line is lost that the order does not have (`NothingUnorderedIsSwept`). But a
  change of a line that is there goes through: raised from one to three after the
  read, the order has one and the cart is empty (`LateEditIsLost`, `ThreeForOne`).
  Nothing but what is ordered is swept away if and only if, variant by variant,
  the last edit since the cart was read set the ordered quantity or took the line
  out (`SweepsIff`). All else stays serial (`EditedSerialisable`).
- **Promo form.** The validation is documented as mirroring the schema. It lets
  through currency keys in lower case, which break the foreign key
  (`LowerCaseKeyPassesUnstorable`), bounds less than a microsecond apart, which the
  table keeps as one instant (`CloseBoundsPassUnstorable`), caps beyond the integer
  column, and codes with a zero byte, which no text column holds; it lets through
  nothing else that a row may not be (`PassingIsStorableIff`). What it refuses
  beyond the schema is exactly the house rules (`StorablePassesIff`).
- **Free-shipping gap.** Reaching the reported gap waives the base rate if and
  only if there is a base rate (`GapWaivesIff`); with a zero rate a gap can be
  shown that no basket closes (`GapWithoutBase`).
- **Restoring stock.** The joined UPDATE of a cancellation gives back exactly
  what was taken because an order has one item per variant (`RestoreIsExact`);
  with two it would not (`RestoreNeedsUniqueItems`). The cart's key makes this an
  invariant.
- **Facet counts.** Benefits are counted in rows of the link table; that is
  counting products because the table's key keeps links unique
  (`RowsAreProducts`, `RowsNeedUniqueLinks`).

## Assumptions

- The engine runs at its default isolation, read committed. Statements are atomic
  but for their waits; locks are granted row by row and held to commit. A granted
  lock shows the row's own columns as last committed, while what the same query
  counts elsewhere comes from the snapshot it began with.
- Of the shared locks that foreign keys take, those of a new cart line are
  modelled. The others are on rows their transaction has locked already, or belong
  to edits that `Workday` lets through at any moment: more than the engine allows,
  and what is proved holds all the same.
- A form reaches the check from a JSON body: its texts are UTF-8, its amounts fit
  64 bits and its instants have years of four digits.
- Deadlock freedom is about checkouts among themselves. A cancellation restores
  its variants in one UPDATE without an order, and is not part of that claim.
- The lock on the whole admin set is granted in one step.
- A preview agrees with the order when every line has a price in some market:
  the cart query joins prices, so an unpriced line vanishes from the preview
  while checkout refuses the cart (`UnpricedLine`). Of the carts quoted without an
  issue, exactly those in stock and with every line priced are placed
  (`QuotedIsPlacedIff`). The catalog forms never leave a variant unpriced: they
  demand a positive price in the base currency
  (backend/internal/domain/product.go:383, backend/internal/api/products_admin.go:280).
- The currencies table holds exactly USD and AMD, as migration 000016 inserts.
- Effective prices are a given map from variant and market to a positive amount.

## Model

| member | source | states |
|---|---|---|
| `Pricing.Price` | backend/internal/domain/price.go:103-165 | the mutable, branch-by-branch calculator yields exactly the quote whose every figure has its own closed definition |
| `Wrappers.TruncDivLeaves` | backend/internal/domain/price.go:77-79 | division truncates toward zero, negative amounts included |
| `Pricing.PercentOfNearest` | backend/internal/domain/price.go:77-79 | rounding is to the nearest minor unit, half up, and a share of at most 100 per cent stays within the amount |
| `Pricing.ContainedVATNearest` | backend/internal/domain/checkout.go:232-235 | the contained tax is within half a unit of a sixth of the amount and never exceeds it |
| `Pricing.TariffIsSound` | backend/migrations/000017_checkout.up.sql:128-135 | every tariff the table takes, with any basket and any count of orders, is within what the money laws ask for |
| `Pricing.NoIssueIff` | backend/internal/domain/promo.go:174-198 | a code applies exactly when it is active, the instant is within its bounds (both count), it has a redemption to spare and this shopper has none, and the basket meets its minimum and, for a fixed code, its market has an amount |
| `Pricing.FirstIssueIsTold` | backend/internal/domain/promo.go:174-198 | which refusal is told when: existence, then time, then own use, then the cap, then the basket |
| `Pricing.FixedTakesOff` | backend/internal/domain/price.go:124-143 | an applying fixed code takes its amount in this market off, or what the member discount left if that is less |
| `Pricing.PercentTakesOff` | backend/internal/domain/price.go:124-143 | an applying percent code takes that share of the shelf subtotal off, to the nearest unit with ties going up, or what the member discount left |
| `Pricing.NothingTakenOff` | backend/internal/domain/price.go:124-143 | a code with an issue, a free-shipping code or no code takes nothing off the goods |
| `Pricing.MemberTakesOff` | backend/internal/domain/price.go:117-121 | eight per cent to the nearest unit from the second order on, and on the first order nothing |
| `Pricing.BaseIsWaivedIff` | backend/internal/domain/price.go:107-158 | the base rate is waived exactly on a first order, over the threshold or by an applying free-shipping code; the surcharge is charged all the same; the gap is shown exactly below a threshold with the base charged, and adding it reaches the threshold |
| `Pricing.TaxIsASixth` | backend/internal/domain/price.go:160-164 | the tax is a sixth of what is paid for the goods, to the nearest unit |
| `Pricing.DiscountBounds` | backend/internal/domain/price.go:117-143 | both discounts are non-negative and the clamp keeps the code within what the member discount left |
| `Pricing.QuoteBalances` | backend/internal/domain/price.go:103-165 | member plus promo is the discount, the discount fits the subtotal, the total balances, the cold surcharge is never waived, the tax lies within the goods payable |
| `Pricing.PromoNeverRaisesTotal` | backend/internal/domain/price.go:124-143 | a code never raises a total, and one with an issue changes no figure |
| `Pricing.ShippingAgrees` | backend/internal/domain/checkout.go:255-264 | the quote's shipping is the shop's own tariff unless a waiver applies, and never above it |
| `Pricing.GapIsExact` | backend/internal/domain/price.go:145-158 | with a base rate, raising the basket by d waives it exactly when d reaches the reported gap or a free-shipping code starts to apply |
| `Pricing.GapWaivesIff` | backend/internal/domain/price.go:145-158 | adding the reported gap waives the base if and only if the base rate is positive |
| `Pricing.GapWithoutBase` | backend/internal/domain/price.go:145-158 | a concrete basket with a zero base rate is shown a gap whose reaching waives nothing |
| `Pricing.AppliesToBigger` | backend/internal/domain/promo.go:174-198 | a code that applies to a basket applies to every bigger one at the same instant |
| `Pricing.ShallowCodeGrowth` | backend/internal/domain/price.go:117-143 | member and percent discounts together grow by at most the raise plus one unit, below 92 per cent |
| `Pricing.DeepCodeTakesAll` | backend/internal/domain/price.go:117-143 | from 92 per cent the two discounts cover the whole basket, so the clamp rules |
| `Pricing.PayableAlmostMonotone` | backend/internal/domain/price.go:117-143 | under an applying percent code any raise of the subtotal lowers the goods payable by at most one minor unit, by none for a first order |
| `Pricing.PayableDropIsReached` | backend/internal/domain/price.go:117-143 | six units against seven at 8 per cent twice: the one-unit drop happens |
| `Money.Scaled` | backend/internal/domain/currency.go:136-142 | the same markets, each figure times n |
| `Money.AddTo` | backend/internal/domain/currency.go:156-160 | markets are united and summed one by one; nothing is converted |
| `Money.Intersect` | backend/internal/domain/cart.go:54-83 | deleting while iterating leaves exactly the markets in both, each summed |
| `Money.CartTotals` | backend/internal/domain/cart.go:54-83 | a market is in the totals exactly when every line is priced in it, with the sum of price times quantity as its figure |
| `PromoRules.UpperASCII` | backend/internal/domain/currency.go:164-172 | the in-place byte loop upper-cases every ASCII letter and nothing else |
| `PromoRules.ParsesIff` | backend/internal/domain/currency.go:63-74 | a key names a currency exactly when it spells its code in some mixture of cases |
| `PromoRules.ValidatePromoInput` | backend/internal/domain/promo.go:80-149 | the returned map holds one entry per broken rule, under its own field and verdict, and is empty exactly when no rule is broken |
| `PromoRules.ValidateRules` | backend/internal/domain/promo.go:80-113 | the market-independent half of that map, the code's length counted in bytes |
| `PromoRules.ValidateValues` | backend/internal/domain/promo.go:115-132 | the loop over the markets adds exactly their complaints and disturbs no other |
| `PromoRules.ValidateValue` | backend/internal/domain/promo.go:115-132 | one market's entries, the later complaint about an amount replacing the earlier |
| `PromoRules.VerdictsMean` | backend/internal/domain/promo.go:75-149 | each verdict by what it says: left out, over forty bytes, a number out of its range, or senseless by itself or beside the other fields |
| `PromoRules.PassingIsStorableIff` | backend/migrations/000018_promotions.up.sql:18-67 | a passing form satisfies every CHECK, column and key of the tables if and only if its currencies are spelled canonically, its cap fits the column, its code has no zero byte and its bounds fall in different microseconds |
| `PromoRules.StorablePassesIff` | backend/internal/domain/promo.go:75-149 | of the forms the tables would take, exactly those within the house rules pass |
| `PromoRules.LowerCaseKeyPassesUnstorable` | backend/internal/domain/promo.go:115-118 | the key "usd" passes the check and violates the foreign key |
| `PromoRules.CloseBoundsPassUnstorable` | backend/internal/domain/promo.go:106-108 | bounds a hundred nanoseconds apart pass the check and violate the CHECK on the table |
| `PromoRules.StorableIsSound` | backend/migrations/000018_promotions.up.sql:18-67 | every stored code is within the ranges the price calculator assumes |
| `PromoRules.CodeReadsBack` | backend/internal/store/promos.go:41-78 | a stored code is read back as the form said it: kind, percent, cap, money market by market, and valid at exactly the instants of its window to the microsecond |
| `PromoRules.CanApplyIff` | backend/internal/domain/promo.go:134-146 | a stored code can ever apply somewhere exactly when it is active and, if fixed, names an amount |
| `Lifecycle.HistoryBounded` | backend/internal/domain/order.go:140-153 | a timeline has at most three steps after its first entry and never continues past a cancellation |
| `Lifecycle.HistoryExtends` | backend/internal/domain/order.go:146-153 | appending keeps a timeline lawful exactly when the table allows the step |
| `Lifecycle.LawfulTimelines` | backend/internal/domain/order.go:140-153 | the lawful timelines from pending are six, written out |
| `Lifecycle.PaymentMovesForward` | backend/internal/domain/checkout.go:143-155 | a payment change is allowed exactly from unpaid to paid and from paid to refunded |
| `Sorting.ByVariantAscends` | backend/internal/store/orders.go:66-88 | locking order: the cart's lines, all of them, in strictly ascending variant order |
| `Sorting.ProductsOfAscends` | backend/internal/store/orders.go:343-371 | the products to count, ascending and complete |
| `Sorting.RestoreIsExact` | backend/internal/store/orders.go:574-583 | the joined UPDATE gives back exactly the order's quantity of every variant when items are unique |
| `Sorting.RestoreNeedsUniqueItems` | backend/internal/store/orders.go:574-583 | with two items of one variant it gives back less |
| `Store.CheckLines` | backend/internal/store/orders.go:121-143 | the loop stops at the first unsellable line in lock order, else has the subtotal and the cold flag |
| `Store.SumSold` | backend/internal/store/orders.go:354-357 | quantities summed per product, complete |
| `Store.SortIds` | backend/internal/store/orders.go:358-364 | exactly the map's keys, strictly ascending |
| `Store.Store.constructor` | backend/migrations/000004_create_cart_orders.up.sql:3-36 | a stocked shop without customers has sound books |
| `Store.Store.ReadCart` | backend/internal/store/orders.go:66-123 | reading the locked lines changes nothing and sees every line with its stock and price |
| `Store.Store.ReadPromo` | backend/internal/store/promos.go:103-120 | the cart's code with its live redemption count and this shopper's use of it |
| `Store.Store.CountPrior` | backend/internal/store/promos.go:307-317 | the count of this customer's non-cancelled orders |
| `Store.Store.TakeStock` | backend/internal/store/orders.go:318-341 | one decrement per line adds up to every variant's ordered quantity |
| `Store.Store.CountSales` | backend/internal/store/orders.go:343-371 | one increment per product adds up to every product's ordered quantity |
| `Store.Store.JudgeOrder` | backend/internal/store/orders.go:49-235 | the reading half: the first failing check in the code's order, else the complete order row |
| `Store.Store.WriteOrder` | backend/internal/store/orders.go:237-382 | order, event, redemption, stock, counters and emptied cart: the whole new state |
| `Store.Store.CreateOrder` | backend/internal/store/orders.go:37-388 | the imperative checkout, refusals included, is the specified transaction on the whole state, and keeps the books sound |
| `Store.Store.RestoreStock` | backend/internal/store/orders.go:574-583 | the join of shelf rows to items, row by row |
| `Store.Store.ApplyStatus` | backend/internal/store/orders.go:559-614 | the write half of a status change with its side effects, and nothing else |
| `Store.Store.UpdateOrderStatus` | backend/internal/store/orders.go:518-549 | missing order, illegal step, or the specified change of the whole state |
| `Store.Store.CancelOrderByCustomer` | backend/internal/store/orders.go:625-659 | somebody else's order is not found, a late one is refused, else it is cancelled |
| `Store.Store.UpdatePaymentStatus` | backend/internal/store/orders.go:674-707 | a payment change along its table and nothing else |
| `Store.Store.MergeItem` | backend/internal/store/orders.go:785-809 | the fate of one ordered line against the shelf and the cart |
| `Store.Store.MergeAll` | backend/internal/store/orders.go:784-809 | the merging loop reports every line's fate against the cart as it was, and its cart is exactly the reported one |
| `Store.Store.Reorder` | backend/internal/store/orders.go:724-815 | a missing or somebody else's order is not found, a detached one fails on its missing owner, else the cart is merged and nothing else changes; the books stay sound |
| `Store.Store.SetCartItem` | backend/internal/store/cart.go:86-101 | the upsert on (user, variant), or not found for a variant that does not exist |
| `Store.Store.DeleteCartItem` | backend/internal/store/cart.go:103-110 | the one line goes, the others stay |
| `Store.Store.SetCartPromo` | backend/internal/store/promos.go:125-135 | the second code replaces the first |
| `Store.Store.ClearCartPromo` | backend/internal/store/promos.go:137-143 | only this cart forgets its code |
| `Store.Store.CreatePromo` | backend/internal/store/promos.go:208-238 | a new code is stored, one whose text is taken refused |
| `Store.Store.UpdatePromo` | backend/internal/store/promos.go:244-280 | text and rules of an existing code are replaced and its redemption rows stay; an unknown code is not found, a text that another code has is refused |
| `Store.Store.SetStock` | backend/internal/store/products_admin.go:187 | the shelf count is set outright; the difference counts as supplied |
| `Store.Store.DeleteAccount` | backend/internal/store/users.go:93-167 | over both tables: not found, refused for the last admin, or the account goes, its orders are detached and kept, its cart, code and redemptions go; the books stay sound |
| `Ledger.OpeningBooks` | backend/migrations/000004_create_cart_orders.up.sql:3-36 | a stocked shop without orders satisfies the invariant, so every run from it is covered |
| `Ledger.CheckoutShape` | backend/internal/store/orders.go:37-388 | a checkout either changes nothing and refuses, or publishes one new order under the next number |
| `Ledger.CheckoutIsFresh` | backend/internal/store/orders.go:121-219 | from sound books an accepted order is in stock, unique per variant, pending and priced with the true order count |
| `Ledger.NewOrderPromo` | backend/internal/store/orders.go:168-219 | a code reaches an order only with a redemption to spare and none of this customer's |
| `Ledger.PublishConserves` | backend/internal/store/orders.go:318-341 | writing an order keeps shelf plus live orders equal to what was supplied |
| `Ledger.PublishKeepsRedemptions` | backend/internal/store/orders.go:298-310 | redemption rows stay exactly the live orders of live accounts that used a code, one per code and customer |
| `Ledger.AdvanceConserves` | backend/internal/store/orders.go:559-614 | a status change, a cancellation included, keeps stock conserved and non-negative |
| `Ledger.AdvanceKeepsRedemptions` | backend/internal/store/orders.go:585-593 | cancelling frees exactly the order's own redemption |
| `Ledger.AdvanceKeepsTimeline` | backend/internal/store/orders.go:595-610 | the appended event keeps the timeline lawful, and a delivered cash order is paid |
| `Ledger.CloseAccountKeeps` | backend/internal/store/users.go:139-160 | deleting an account keeps every part of the invariant |
| `Ledger.ReorderKeeps` | backend/internal/store/orders.go:724-815 | a reorder keeps cart lines unique and positive |
| `Ledger.ApplyKeeps` | backend/internal/store/orders.go:37-815 | every transaction, refused or not, keeps the books sound |
| `Ledger.RunKeeps` | backend/internal/store/orders.go:37-815 | every run of transactions from sound books ends in sound books |
| `History.RunGrows` | backend/internal/store/orders.go:518-707 | over any run an order keeps its place and figures, its timeline is only appended to, its payment never moves back |
| `History.FinalForGood` | backend/internal/domain/order.go:140-153 | no run moves an order out of delivered or cancelled |
| `History.TimelineBounded` | backend/internal/store/orders.go:284-290 | in every reachable state a timeline starts at pending, is lawful, ends at the status, has at most four entries, and a delivered cash order is not unpaid |
| `History.CancelUndoesTheOrder` | backend/internal/store/orders.go:574-593 | a cancellation returns exactly the order's quantities and frees exactly its redemption, touching no counter or cart |
| `History.CancelledOnce` | backend/internal/store/orders.go:518-549 | after a cancellation no later request of any run restores the order again |
| `History.PlaceThenCancel` | backend/internal/store/orders.go:625-659 | placing and cancelling gives back shelf, redemptions, other orders and the customer's order count |
| `History.ConflictUnreachable` | backend/internal/store/orders.go:206-218 | in one state, a checkout that has seen its customer's own redemptions and passes the promo check never meets the unique index |
| `History.CapStep` | backend/internal/store/promos.go:244-280 | from sound books one transaction keeps a code within its cap if and only if it is not an edit of the rules that takes effect and undercuts it |
| `History.CapOverRuns` | backend/internal/store/orders.go:168-188 | over any run of whole transactions without such an edit live redemptions stay within the cap |
| `History.TextsStayDistinct` | backend/migrations/000018_promotions.up.sql:44-48 | no run leaves two codes with one text |
| `History.OneFirstOrder` | backend/internal/store/orders.go:49-65 | of two live orders of one account at most one was priced as a first order, and the other carries exactly the member percentage |
| `Effects.RunOfOne` | backend/internal/store/orders.go:37-815 | a run of one transaction is that transaction |
| `Effects.RunInTwo` | backend/internal/store/orders.go:37-815 | a run is whatever comes first followed by the rest |
| `Effects.OrderMoves` | backend/internal/store/orders.go:518-707 | what any transaction does to any order: its status moves by a step of the parcel that the shop asks for or by its own customer calling it off while pending, its money by a mark or as cash with the parcel, its owner goes with the account, and nothing else of it moves |
| `Effects.OrderAnswers` | backend/internal/store/orders.go:518-707 | what a status change, a payment change and a customer's cancellation answer: a stranger's order is not found, a late one refused, an illegal step refused, all else done |
| `Effects.ShelfAnswers` | backend/internal/store/orders.go:724-757 | what the other transactions answer; of a reorder: not found, a missing owner, somebody else's, or merged |
| `Effects.RefusedChangesNothing` | backend/internal/store/orders.go:37-815 | a transaction that is refused leaves every table as it was |
| `Effects.ShelfMoves` | backend/internal/store/orders.go:318-341 | the shelf loses what is in the cart that is ordered, gets back what an order that is called off had, is set by a recount and is moved by nothing else |
| `Effects.SoldIsUnits` | backend/internal/store/orders.go:354-357 | what a product sold is the sum of the ordered quantities over its variants |
| `Effects.CheckoutCounts` | backend/internal/store/orders.go:343-371 | a placed order raises each product's counter by the units that leave the shelf of its variants |
| `Effects.CounterMoves` | backend/internal/store/orders.go:343-371 | and no other transaction moves a counter |
| `Effects.SalesOverRuns` | backend/internal/store/orders.go:354-371 | over any run a counter grows by the units of the product's variants that were ordered meanwhile |
| `Effects.RedemptionMoves` | backend/internal/store/orders.go:298-310 | a placed order adds the row of its cart's code, calling an order off removes its own row, closing an account its customer's, and nothing else moves any |
| `Effects.CartMoves` | backend/internal/store/cart.go:86-110 | what any transaction but the customer's own reorder leaves in a cart of a variant |
| `Effects.CartCodeMoves` | backend/internal/store/promos.go:125-143 | which code a cart carries after any transaction |
| `Effects.RulesMove` | backend/internal/store/promos.go:208-280 | rules are written whole by an edit that is let through and by nothing else |
| `Effects.SupplyMoves` | backend/internal/store/products_admin.go:187 | only a recount adds to what was supplied, by the difference it finds; prices, rates and flags are set together |
| `Effects.PriorIsCount` | backend/internal/store/promos.go:307-317 | the count a checkout is priced with is the number of the customer's orders that were not called off |
| `Effects.PlacedOrder` | backend/internal/store/orders.go:237-310 | a new order is its customer's, pending and unpaid, with the method, market and code asked for, one item for each line of the cart, in its quantity and at the catalog's price in that market, and the quote for what the items come to, something cold among them and the customer's count as its figures |
| `Effects.CodeIsRead` | backend/internal/store/promos.go:103-120 | the code a checkout reads has its rules, the number of orders holding a redemption of it, and whether this customer holds one |
| `Effects.CheckoutRefuses` | backend/internal/store/orders.go:109-219 | an empty cart, the first faulty line in variant order, a missing tariff, an issue with the code: a checkout is refused for the first of these that holds and placed when none does |
| `Effects.WhoCancelled` | backend/internal/store/orders.go:625-659 | an order live at the start of a run and cancelled at its end was called off at one moment, by the shop or by the customer who owned it then |
| `Effects.HowItWasPaid` | backend/internal/store/orders.go:595-610 | an order that stopped being unpaid did so by a mark of the shop or, if cash on delivery, by its delivery |
| `Concurrency.SteppedStaysCurrent` | backend/internal/store/orders.go:57-219 | a step keeps the transaction's reads equal to the committed rows, the count of redemptions apart |
| `Concurrency.SteppedTakesWanted` | backend/internal/store/orders.go:57-371 | a step takes exactly the row it asked for |
| `Concurrency.WrittenIsPublished` | backend/internal/store/orders.go:318-371 | figures computed from values read under the locks are the figures a checkout run alone would write |
| `Concurrency.EndingIsSerial` | backend/internal/store/orders.go:37-388 | whatever ends an interleaved checkout is what the same checkout, going by the count it saw, does alone at that moment; the count was never too high |
| `Concurrency.CommitFrame` | backend/internal/store/orders.go:57-188 | another checkout's commit changes nothing an open one has read under its locks; only the redemptions of its code may outgrow what it saw |
| `Concurrency.OthersApart` | backend/internal/store/orders.go:57-371 | two open checkouts never hold one row |
| `Concurrency.StepInv` | backend/internal/store/orders.go:37-388 | the two-phase locking invariant survives every step of every checkout |
| `Concurrency.Serialisable` | backend/internal/store/orders.go:37-388 | after any interleaving of any number of checkouts the tables and replies are those of a serial run in finishing order, each checkout going by the count it saw, never one too high, and each finished checkout in it exactly once |
| `CapRace.SeeingIff` | backend/internal/store/orders.go:170-188 | a checkout going by an earlier count does what it would do alone, unless it is misled, and then its reply differs |
| `CapRace.SerialIff` | backend/internal/store/orders.go:163-188 | the finished checkouts of any interleaving did what they would have done one after another, each reading for itself, if and only if none was misled |
| `CapRace.CapIff` | backend/internal/store/orders.go:163-188 | at every instant of every interleaving a code is within its cap if and only if no checkout that had counted one to spare placed its order after the last one was gone |
| `CapRace.BothOrder` | backend/internal/store/orders.go:170-178 | two customers with different jars and one code, who both count before either commits, both place their orders, whatever the cap |
| `CapRace.LastOneTwice` | backend/internal/store/orders.go:163-178 | in every sound shop with one redemption left that interleaving exceeds the cap |
| `CapRace.OneOfTwoAlone` | backend/internal/store/orders.go:163-188 | one after the other, whichever comes first, the two never both get the last redemption |
| `CapRace.CapIsExceeded` | backend/internal/store/promos.go:31-39 | a concrete shop whose cap of one two customers exceed |
| `Deadlock.HeldBelowWanted` | backend/internal/store/orders.go:57-371 | every row a checkout holds ranks below the row it asks for next |
| `Deadlock.NoWaitCycle` | backend/internal/store/orders.go:57-371 | in no interleaving do checkouts wait for each other in a circle |
| `Deadlock.FindRunner` | backend/internal/store/orders.go:57-371 | following who waits for whom ends at a checkout that can move |
| `Deadlock.StepAdvances` | backend/internal/store/orders.go:37-388 | every step that is not a wait lowers the work left |
| `Deadlock.EverybodyCanFinish` | backend/internal/store/orders.go:37-388 | every interleaving can be continued until all checkouts have finished |
| `FlashSale.InterleavedBooks` | backend/internal/store/orders.go:37-388 | at every instant of every interleaving of checkouts the books are sound |
| `FlashSale.ConflictNeverHappens` | backend/internal/store/orders.go:298-310 | in no interleaving of checkouts is one refused by the once-per-customer index, whatever happens between its look at the redemptions and its insert |
| `FlashSale.SerialSale` | backend/internal/store/orders.go:125-143 | in every serial log of n one-unit checkouts against k units min(n, k) succeed and the rest stays on the shelf |
| `FlashSale.NeverOversold` | backend/internal/store/orders.go:125-143 | n one-unit checkouts against k units, however interleaved, succeed exactly min(n, k) times and leave the rest |
| `FlashSale.OrdersPassChecks` | backend/migrations/000017_checkout.up.sql:62-84 | no order a checkout writes can violate the CHECK constraints of the orders table |
| `CartRaces.EditWaitsFor` | backend/migrations/000004_create_cart_orders.up.sql:3-12 | an edit waits exactly when it makes a new line and a checkout holds the row of the customer or of the variant |
| `CartRaces.HappenOne` | backend/internal/store/cart.go:86-110 | a stretch of one event is that event |
| `CartRaces.HappenInTwo` | backend/internal/store/cart.go:86-110 | a stretch of checkout steps and edits is whatever comes first followed by the rest |
| `CartRaces.NotingChangesNothing` | backend/internal/store/orders.go:37-388 | the record that the cart-edit laws speak of is a pure observation of the interleaving |
| `CartRaces.EditKeepsLocks` | backend/internal/store/cart.go:86-110 | an edit of a cart no open checkout has read disturbs none of them |
| `CartRaces.NoteKeeps` | backend/internal/store/orders.go:37-388 | every event keeps: the open checkouts see a serial state, and each real cart is the one that was read with the edits since |
| `CartRaces.EditedSerialisable` | backend/internal/store/orders.go:37-388 | after any interleaving of checkouts and cart edits with no checkout open, tables and replies are those of the checkouts in finishing order and the edits, less those a placed order swept away |
| `CartSweeps.LastWord` | backend/internal/store/cart.go:86-110 | after any edits a line is what the last effective edit of its variant made it |
| `Ledger.OrderedQty` | backend/internal/store/orders.go:318-341 | an order holds each variant in the quantity the cart had when it was read |
| `CartSweeps.SweepsIff` | backend/internal/store/orders.go:373-382 | emptying the cart at commit takes nothing but what is ordered if and only if, variant by variant, the last edit since the cart was read set the ordered quantity or took the line out |
| `CartSweeps.NothingUnorderedIsSwept` | backend/migrations/000004_create_cart_orders.up.sql:3-12 | a new line waits for the checkout that holds the customer's row, so every line that goes with the cart has its variant in the order |
| `CartSweeps.LateQuantityIsLost` | backend/internal/store/orders.go:373-382 | wherever the last edit of a variant set another quantity than the ordered one, that quantity is in the cart before the commit and gone after it |
| `CartSweeps.LateEditIsLost` | backend/internal/store/cart.go:86-92 | for every checkout of one line that would succeed alone, an interleaving in which the order has the old quantity and the changed one is gone |
| `CartSweeps.ThreeForOne` | backend/internal/store/cart.go:86-92 | a concrete shop where it happens |
| `Workday.WaitsForItsRows` | backend/internal/store/orders.go:518-659 | row by row what makes a transaction wait for a checkout: the variants a cancellation gives back to, a recounted variant, an edited code, a deleted customer |
| `Workday.HappenOne` | backend/internal/store/orders.go:37-815 | a stretch of one event is that event |
| `Workday.HappenInTwo` | backend/internal/store/orders.go:37-815 | a stretch of checkout steps and other transactions is whatever comes first followed by the rest |
| `Workday.StepStands` | backend/internal/store/orders.go:57-219 | a step of a checkout keeps standing what it relies on: stock and rules under its locks, and no fewer orders than the customer has |
| `Workday.CommitKeepsBooks` | backend/internal/store/orders.go:237-388 | a commit on whatever the other transactions have left of the tables keeps the books sound |
| `Workday.SparedStands` | backend/internal/store/orders.go:559-614 | another transaction that waits for locked rows leaves standing what every open checkout relies on |
| `Workday.BooksAllDay` | backend/internal/store/orders.go:37-815 | with cancellations, payments, stock counts, edits and account deletions between the steps of any number of checkouts, at every instant stock is conserved and not negative, redemptions exact, timelines lawful, perks given once |
| `Workday.CapAllDay` | backend/internal/store/promos.go:244-280 | after any such day, a step breaks a cap if and only if it is an edit that undercuts it or a commit that had counted one to spare when the cap is reached |
| `Preview.GroupRows` | backend/internal/store/cart.go:29-83 | the moving-pointer loop yields one line per run of rows with all its prices |
| `Preview.GroupingRoundTrip` | backend/internal/store/cart.go:29-83 | splitting a keyed cart into priced rows and grouping them gives its lines back |
| `Preview.TotalsOfItems` | backend/internal/domain/cart.go:54-83 | the grouped lines total exactly what the cart's own rows do, in every market |
| `Preview.QuoteMarket` | backend/internal/api/checkout.go:110-123 | the closure prices one market, or none when a line or the rate is missing |
| `Preview.OtherTotals` | backend/internal/api/checkout.go:165-176 | a market is listed exactly when it can be quoted and the code fares there as in the primary one, with its own total |
| `Preview.BuildPreview` | backend/internal/api/checkout.go:70-178 | the response carries the primary market's quote, the threshold behind a reported gap and the totals of exactly the markets where the code fares alike; without a quote it carries none of them |
| `Preview.SameInput` | backend/internal/store/orders.go:190-219 | checkout feeds the calculator the very input the preview fed it |
| `Preview.PreviewAndOrderAgree` | backend/internal/store/orders.go:121-219 | for every state, cart, market and instant: what the preview cannot quote is refused, what is short is refused as short, an issue is refused as that issue, and everything else is charged as quoted |
| `Preview.QuotedIsCharged` | backend/internal/store/orders.go:206-279 | a stocked basket quoted without an issue becomes an order row with identical figures |
| `Preview.UnpricedLine` | backend/internal/store/cart.go:38 | one cart with a line priced nowhere, wherever it stands: quoted as if the line were not there, and refused by checkout |
| `Preview.QuotedIsPlacedIff` | backend/internal/store/orders.go:121-219 | a cart quoted without an issue is placed, with the quoted figures, if and only if it is in stock and every line is priced somewhere |
| `CartMerge.BooksMakeReorderable` | backend/internal/store/orders.go:724-782 | what the merge laws assume of an order and a cart holds in every sound state |
| `CartMerge.ReportIsTrue` | backend/internal/store/orders.go:785-809 | each report line says exactly how much was added and why not more |
| `CartMerge.ReorderFills` | backend/internal/store/orders.go:785-809 | the cart line ends at in-cart plus the ordered quantity as far as there is room |
| `CartMerge.ReorderTouchesOnlyItsLines` | backend/internal/store/orders.go:785-809 | no other line, cart or table changes, and a line that grows stays within stock and 99 |
| `CartMerge.RepeatedReorder` | backend/internal/store/orders.go:785-809 | k repeats at fixed stock give min(in-cart + k * ordered, cap) |
| `Wishlist.FirstFitIsChosen` | backend/internal/store/wishlist.go:113-148 | the scan picks the first row of the product with room |
| `Wishlist.Search` | backend/internal/store/wishlist.go:120-128 | the inner loop finds that row or none |
| `Wishlist.Account.AddWishlistToCart` | backend/internal/store/wishlist.go:68-154 | the nested loops produce one report line per product and exactly the reported cart |
| `Wishlist.Account.SaveForLater` | backend/internal/store/wishlist.go:191-227 | the line leaves the cart and its product is hearted, or nothing happens |
| `Wishlist.FirstSeenIsInOrder` | backend/internal/store/wishlist.go:113-129 | the products reported are exactly those of the rows, each once |
| `Wishlist.ReportedInOrder` | backend/internal/store/wishlist.go:113-129 | a product met later is reported later |
| `Wishlist.ReportIsComplete` | backend/internal/store/wishlist.go:113-148 | the report has exactly one line for each saved product, in the order they are met, and each line names the first variant with room or that there is none |
| `Wishlist.AddedAtMostOnce` | backend/internal/store/wishlist.go:113-148 | no variant is added twice |
| `Wishlist.AddAllAddsOnePerProduct` | backend/internal/store/wishlist.go:113-148 | every cart line grows by one if its variant was picked and not at all otherwise, within stock and 99 |
| `Facets.CategoryAgrees` | backend/internal/store/products.go:581-642 | a category's count is the grid's total once that category alone is picked |
| `Facets.BenefitAgrees` | backend/internal/store/products.go:581-642 | a benefit's count is the grid's total once that benefit alone is picked |
| `Facets.SummaryAgrees` | backend/internal/store/products.go:581-642 | the total is the grid's with the category filter lifted |
| `Facets.RowsAreProducts` | backend/migrations/000008_benefits.up.sql:23-27 | with unique links the row count is the product count |
| `Facets.RowsNeedUniqueLinks` | backend/internal/store/products.go:581-642 | with a repeated link it is not |
| `Facets.NoFilterListsAll` | backend/internal/store/products.go:115-149 | with nothing filtered the grid lists every product |
| `Facets.InactiveFilter` | backend/internal/store/products.go:115-149 | hiding inactive products takes out exactly those |
| `Facets.SearchFilter` | backend/internal/store/products.go:115-149 | a search takes out exactly what it does not hit |
| `Facets.CategoryFilter` | backend/internal/store/products.go:115-149 | a category takes out exactly the products of others |
| `Facets.PriceFilter` | backend/internal/store/products.go:115-149 | a price band takes out exactly the products with no price within both ends |
| `Facets.BenefitFilter` | backend/internal/store/products.go:137-140 | a benefit takes out exactly the products not linked to it |
| `Facets.AnyBenefitWillDo` | backend/internal/store/products.go:137-140 | with several benefits ticked the grid is the union of what each lists alone |
| `Facets.ShownInOrder` | backend/internal/store/products.go:581-642 | the sidebar has one line for each category and benefit that a visible product has, in the order of the tables |
| `Facets.CategoriesSumToTotal` | backend/internal/store/products.go:581-642 | category counts sum to the total |
| `Facets.HiddenCategoriesCountNothing` | backend/internal/store/products.go:581-642 | the values left out of the answer would have counted nothing |
| `Facets.PriceBounds` | backend/internal/store/products.go:581-642 | the aggregate's least and greatest price over all visible products |
| `Facets.BoundsLoseNothing` | backend/internal/store/products.go:120-149 | filtering to the reported bounds keeps every priced product and drops only the unpriced |
| `Facets.QueryRows` | backend/internal/store/products.go:582-642 | the tagged rows are the three groups, the summary last |
| `Facets.CatalogFacets` | backend/internal/store/products.go:581-693 | the loop sorts the tagged rows into an answer that agrees with the grid for every catalog and filter, several benefits ticked included, has the tight ends of the prices listed and shows its lines in order |
| `RateLimiter.Limiter.constructor` | backend/internal/api/ratelimit.go:44-51 | a new limiter has no window |
| `RateLimiter.Limiter.Sweep` | backend/internal/api/ratelimit.go:79-85 | deleting while iterating leaves exactly the windows that still run |
| `RateLimiter.Limiter.Allow` | backend/internal/api/ratelimit.go:57-73 | the answer and the whole new table of an attempt |
| `RateLimiter.TableMoves` | backend/internal/api/ratelimit.go:57-85 | what an attempt leaves of every key: its own window counted or opened anew, another one dropped only when a window was opened and that one had run out |
| `RateLimiter.SweepIsInvisible` | backend/internal/api/ratelimit.go:57-85 | for every run with a non-decreasing clock the sweeping limiter answers as one that never sweeps |
| `RateLimiter.SweepShowsWhenTimeRunsBack` | backend/internal/api/ratelimit.go:79-85 | a three-attempt run whose clock runs back is answered differently |
| `RateLimiter.OnlyRunningWindowsLeft` | backend/internal/api/ratelimit.go:79-85 | after a sweep only unexpired windows remain |
| `RateLimiter.OthersDoNotMatter` | backend/internal/api/ratelimit.go:57-85 | other keys never change an answer of the sweeping limiter, though their attempts trigger its sweeps |
| `RateLimiter.CountsAgree` | backend/internal/api/ratelimit.go:57-85 | over any stretch the sweeping limiter lets through as many attempts as one that never sweeps |
| `RateLimiter.WindowLetsThroughTheLimit` | backend/internal/api/ratelimit.go:57-73 | of the attempts a key makes within a span of the one that opened a window, exactly the limit passes, or all if there are fewer |
| `RateLimiter.QuietKeyRecovers` | backend/internal/api/ratelimit.go:57-73 | a key that made no attempt for a span is allowed, after any run |
| `RateLimiter.OnlyRecentKeysLeft` | backend/internal/api/ratelimit.go:79-85 | after a sweep the table holds only keys that made an attempt within the last span |
| `RateLimiter.WindowVerdict` | backend/internal/api/ratelimit.go:57-73 | a running window lets through exactly the attempts up to the limit; once a span has passed the next is allowed in a new window |
| `RateLimiter.SlidingBound` | backend/internal/api/ratelimit.go:57-73 | over any chronological run at most 2 * limit - 1 attempts of a key pass in any half-open interval of one span |
| `RateLimiter.SlidingBoundIsReached` | backend/internal/api/ratelimit.go:57-73 | for every limit and span of two or more a run meets that bound |
| `RateLimiter.ClosedBound` | backend/internal/api/ratelimit.go:57-73 | with both end instants counted the bound is twice the limit |
| `RateLimiter.ClosedBoundIsReached` | backend/internal/api/ratelimit.go:57-73 | and it is met |
| `Admins.Users.LockAdmins` | backend/internal/store/users.go:115-133 | the loop gathers exactly the admins |
| `Admins.Users.UpdateUserRole` | backend/internal/store/users.go:210-260 | a demotion is refused exactly when the target is the only admin; alone at work, an admin always remains |
| `Admins.Users.DeleteAccount` | backend/internal/store/users.go:93-167 | alone at work, a deletion is refused exactly when the target is the only admin; an admin remains |
| `Admins.EffectOnAdmins` | backend/internal/store/users.go:93-260 | what one statement of one transaction can do to the admin set |
| `Admins.StepKeepsAdmin` | backend/internal/store/users.go:93-260 | a statement leaves an admin if and only if it is not an unlocked deletion of the only one |
| `Admins.AlwaysAnAdmin` | backend/internal/store/users.go:93-260 | an interleaving has an admin at every moment if and only if it holds no such statement |
| `Admins.WaitsFor` | backend/internal/store/users.go:93-260 | which rows a statement waits for: the target of a promotion and of the last write, every admin for the lock of the set, and none for the read a deletion starts with |
| `Admins.SafeWithoutPromotedDeletion` | backend/internal/store/users.go:93-260 | if nobody promotes an account that is being deleted, every interleaving always has an admin |
| `Admins.PromotedDeletionLosesLast` | backend/internal/store/users.go:106-115 | a six-statement interleaving of one deletion and two role changes that leaves none |
| `Admins.RefusedOnlyAlone` | backend/internal/store/users.go:130-137 | a refusal happens only to the sole member of the locked set, and changes nothing |
| `AdminLoss.RunTraced` | backend/internal/store/users.go:93-260 | along any interleaving that still has an admin, every role gained or lost traces back to a request |
| `AdminLoss.LosableLoses` | backend/internal/store/users.go:93-260 | wherever an account is losable, a schedule that leaves no admin is constructed |
| `AdminLoss.CanLoseLastIff` | backend/internal/store/users.go:93-260 | some order of the statements of a set of requests leaves no admin if and only if the requests make some account losable |
| `Newsletter.Subscribers.Subscribe` | backend/internal/store/newsletter.go:27-49 | the upsert's three column rules; confirmation is asked for exactly when it is awaited |
| `Newsletter.Subscribers.Confirm` | backend/internal/store/newsletter.go:56-70 | the rows of the token are confirmed, keeping the first instant; found exactly when one matched |
| `Newsletter.Subscribers.Unsubscribe` | backend/internal/store/newsletter.go:75-88 | the rows of the token are ended, keeping the first instant; found exactly when one matched |
| `Newsletter.Subscribers.UnsubscribeByEmail` | backend/internal/store/newsletter.go:121-130 | the row of the address is ended, keeping the first instant |
| `Newsletter.ColumnsMove` | backend/internal/store/newsletter.go:27-130 | column by column, what each step does to an address: who starts over, whose token is replaced, which instants are set, kept or cleared |
| `Newsletter.StatusSays` | backend/internal/store/newsletter.go:90-115 | not subscribed when unknown or ended, awaiting when neither confirmed nor ended |
| `Newsletter.KnownIff` | backend/internal/store/newsletter.go:27-49 | over any run the table holds exactly the addresses that subscribed and whose account did not go afterwards |
| `Newsletter.SubscribedIff` | backend/internal/store/newsletter.go:27-130 | in every run an address is subscribed on a token if and only if a click on that token, current at the time, was never followed by an unsubscription of the token or the address, or by the account going |
| `Newsletter.SubscribedMeansConfirmed` | backend/internal/store/newsletter.go:27-130 | an address is subscribed only if its current token was mailed to it, confirmed afterwards, and not ended since |
| `Newsletter.TokensAreDistinct` | backend/internal/store/newsletter.go:27-49 | with fresh tokens no two addresses ever share one |
| `Newsletter.SupersededForGood` | backend/internal/store/newsletter.go:27-88 | a token that has stopped matching never matches again |
| `Newsletter.AsksWhenStored` | backend/internal/store/newsletter.go:27-49 | confirmation is asked for exactly when the mailed token is the stored one; otherwise nothing changed; other rows never change |
| `Newsletter.RepeatedClicks` | backend/internal/store/newsletter.go:56-88 | a second click on either link changes nothing |
| `Ico.Put` | frontend/scripts/icons.ts:120-151 | a write changes the bytes it names and no other |
| `Ico.PutEntry` | frontend/scripts/icons.ts:138-146 | the fields of one directory entry, at their places |
| `Ico.CheckImage` | frontend/scripts/icons.ts:134-137 | an image is refused exactly when it is no PNG, not square, not of its declared side or out of range |
| `Ico.ValidIff` | frontend/scripts/icons.ts:96-137 | an image is taken exactly when the signature and the header chunk stand in its bytes, its side is from 1 to 256 and both dimensions in the header spell it |
| `Ico.FaultIsNamed` | frontend/scripts/icons.ts:96-137 | what is not a PNG is said to be none; a PNG of another side is told apart by its number |
| `Ico.AddImage` | frontend/scripts/icons.ts:133-149 | one image is refused for what is wrong with it, or its entry and bytes join what is in place |
| `Ico.EncodeIco` | frontend/scripts/icons.ts:120-151 | the file is written exactly when every image is a square PNG of its declared size, 1 to 256; otherwise the first bad image is named |
| `Ico.PngSizeReadsHeader` | frontend/scripts/icons.ts:96-102 | every file starting as section 4.1.1 of RFC 2083 lays out is read back with its own width and height |
| `Ico.FileIsTiled` | frontend/scripts/icons.ts:120-151 | images follow each other without gap or overlap, from the end of the directory to the end of the file |
| `Ico.EntryInFile` | frontend/scripts/icons.ts:138-146 | each entry stands at its slot in the directory |
| `Ico.EntryFields` | frontend/scripts/icons.ts:138-146 | what stands in an entry field by field: both sides with 256 written as 0, no palette, one plane, 32 bits a pixel, length and offset |
| `Ico.ImageInFile` | frontend/scripts/icons.ts:147-148 | each image's bytes stand at its offset |
| `Ico.ReadsEntryIff` | frontend/scripts/icons.ts:138-148 | a reader following an entry gets the same size, 0 read as 256, and the same bytes, if and only if the length fits its field and the bytes stand where four bytes can point |
| `Ico.ReadsBack` | frontend/scripts/icons.ts:120-151 | while lengths and offsets fit four bytes a file is read back as its images, as many as the two-byte count can say |
| `Ico.RoundTripIff` | frontend/scripts/icons.ts:120-151 | decoding undoes encoding if and only if there are fewer than 65536 images and each can be found from what its entry says |
| `Ico.SmallRoundTripIff` | frontend/scripts/icons.ts:120-151 | below four gigabytes the count alone decides |

## Left out

- Addresses, notes, locale, the exchange-rate snapshot, invoice data and display names: carried along, no rule depends on them.
- HTTP handlers, JSON, cookies, OAuth, mail, uploads, metrics and configuration: I/O.
- Request validation of the API layer (quantities 1 to 99, address and payment checks): simple lookups.
- 64-bit overflow of amounts: figures are unbounded integers here; the shop's prices are far below the range.
- Text search: what the query matches is an arbitrary set of products (`hits`).
- The order and paging of listings, translations, product images, the upsell for the gap.
- `attachVariants`: the same moving-pointer grouping as the cart's, which is modelled.
- The price a cart line shows in the viewer's own market: one lookup in the per-market prices that are modelled.
- Reviews on account deletion: the aggregate is not recomputed there, so no law about it holds.
- Adding and removing products and variants: `EditCatalog` changes prices, flags and rates; a variant never changes product.
- Trimming and Unicode upper-casing of a code's text: the form check and the tables take it already normalised.
- Instants are integers: microseconds where they come from a table, nanoseconds in the form of a code.
- The icon's drawing functions.
- Order numbers: an order's number is its place in commit order; the identity column may skip numbers.
- The code snapshot on an order: modelled as the code's number, not its text at the time.
- `Order.prior` and `Shop.supplied` are bookkeeping of the model: the order count a checkout was priced with, and what was ever put on the shelf.
- Hashing of newsletter tokens: a token stands for its hash, taken as injective.
- Locks taken one by one by transactions other than checkout: each of those runs as one step, which waits while a checkout holds a row it needs.
- Workday.BooksAllDay: says nothing of deadlocks, nor of a serial order, which cancellations can deny a checkout that has counted the customer's orders.
- The newsletter row on account deletion is a step of the newsletter's own runs.
- Store.Store.RestoreStock: visits the shelf rows in a loop; the order in which the UPDATE locks them is not captured.
- Store.Store.DeleteCartItem: the single DELETE statement is one assignment on the line list.
- Admins.Users.DeleteAccount: states the deletion alone at work; interleavings are the lemmas' subject.
