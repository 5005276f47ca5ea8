# Storefront protocols in Dafny

A model of the parts of the shop that are protocols, state machines and arithmetic rather than
record keeping, with proofs of what they promise. `dafny verify dfyconfig.toml` checks it.

| file | what it models |
|---|---|
| `CartValidation.dfy`, `CheckoutPricing.dfy` | the classification of cart lines, the advisory validation, the item check and the paisa totals of checkout |
| `CartItems.dfy` | the rows of a cart and the adds that race for them |
| `ShopDb.dfy`, `CheckoutProtocol.dfy` | the tables of checkout and cancellation, and both as transactions of single statements with their locks, in any number and any interleaving |
| `CheckoutSafety.dfy`, `CheckoutProgress.dfy`, `OrderLedger.dfy` | no overselling, idempotent orders, no deadlock, and what order events and reservations record |
| `CheckoutCalls.dfy` | the service's calls, each proved to be a run of that protocol |
| `CheckoutAgreement.dfy`, `CheckoutLimits.dfy` | when a call creates an order, its agreement with the validation, and states in which a guarantee ends |
| `CheckoutPromises.dfy` | what these calls promise in the fields of a request and the rows of the tables: when a request is a repeat, what an order costs, when pickup and delivery become one, who cancels it |
| `BatchInventory.dfy` | deduction in order of expiry, and merging of batches |
| `EventQueue.dfy` | the retrying event queue |
| `Migrations.dfy` | the migration runner and its crashes |
| `LoginLockout.dfy` | the failure counter and lock of staff logins |
| `AuditTrail.dfy`, `CsvExport.dfy` | the hash chain, the changed fields, the CSV export and a reader for it |
| `Prices.dfy` | versioned price rows and the two ways they are looked up |
| `Founding.dfy` | the numbering of founding members by concurrent joins |
| `QueryHash.dfy` | the rolling hash of search queries |

Conventions. Time is a whole number of milliseconds that never decreases; `NOW()` is the time the
transaction began. Each SQL statement of a transaction is one step under READ COMMITTED, so a
step sees what others have committed; a transaction's writes are shown at its commit, since no
step reads its own earlier writes before. Any step may fail, which rolls the transaction back.
A lock is held until the transaction ends, and a statement that needs a lock held by another is
not enabled. The keys of advisory locks (`hashtext`) are taken to differ where their texts do;
SHA-256 is taken to be free of collisions, and the fingerprint fields of a request stand for
their digest. Money is in paisa where the source rounds to paisa, and exact elsewhere.

## Where the code differs from what one would expect

- The stock column is declared with two decimals (`database/phase3_schema.sql`) and the
  availability query rounds its sum to an integer, halves up. Reservations are always bounded by
  the rounded figure (`CheckoutSafety.NeverOversold`), and by the exact stock if and only if its
  fraction of a unit is below one half: every other stock is oversold by some checkout
  (`CheckoutLimits.StaysWithinIff`, `CheckoutLimits.ShopOversells`).
- Availability is checked line by line, which protects the stock if and only if no product is
  repeated (`CheckoutPricing.PerLineCheckIsEnoughIffDistinct`). The routes that replace a cart or
  validate one refuse repeated products, but adding an item does not: it looks for a row and then
  inserts one, in two statements and without holding the cart, and no index forbids a second row.
  So racing adds leave a repeated product (`CartItems.RacingAdds`), and its checkout can oversell
  (`CheckoutLimits.RacedAddsOversell`). Runs are safe if and only if no checkout reads such rows
  from the cart it holds (`CheckoutLimits.SafeIffHarmless`).
- Cancelling an order also releases reservations held for its cart. So a cancellation undoes a
  checkout exactly if and only if no such reservation is counted
  (`OrderLedger.CancelUndoesCheckout`, `CheckoutLimits.CancelReleasesTheCartToo`).
- A line with a quantity out of range is reported by checkout as a missing price, and a missing
  price as an unavailable product (`CheckoutPricing.MissingPriceMeansQuantity`).
- A deduction that the stock does not cover fails after it has drained every batch
  (`BatchInventory.BatchService.DeductFromBatch`).
- A merge adds quantities up with `+=`. The decimal column of `database/phase3_schema.sql` reaches
  it as text, so two or more source rows are joined into something that is no number and the
  update is refused (`BatchInventory.JoinedIsTotalIff`); with the integer column of
  `database/phase4_operational_schema.sql` they are added.
- A merge into a missing target, or into one of its own sources, loses the moved stock, and a merge
  overwrites the target's own cost (`BatchInventory.MergeConservesQuantityIff`,
  `BatchInventory.MergeConservesValueIff`).
- The retry test reads the attempts from before the increment, so an event gets max_retries + 1
  attempts, once more for each replay or reset (`EventQueue.StartsAreBounded`); a worker that dies
  and is reset removes the bound (`EventQueue.ResetsRemoveTheBound`). Every id given to a replay
  counts as replayed.
- The baseline of a legacy database is recorded row by row outside a transaction, and no baseline
  file can be executed twice: each creates something without asking whether it exists. A death in
  the middle leaves a database on which no run completes any more
  (`Migrations.LegacyCrashConvergesIff`).
- The audit hash is over the values as they are passed, while the row keeps them in JSONB and UUID
  columns, which change the order of members and the form of the id. So a stored row recomputes to
  its hash only if it was passed in the stored form (`AuditTrail.RecomputesIff`).
- Founder numbers are limited to 1000 by a constraint whatever the campaign's capacity is
  (`Founding.RefusalsAreExact`).
- The query hash is short and easy to collide: results cached for one query are found under another
  with the same key (`QueryHash.DifferentQueriesShareAKey`).

## Model

| member | source | states |
|---|---|---|
| `CartValidation.RoundPaisa` | backend/src/services/cartValidationService.ts:219 | Rounding to paisa is to the nearest, halves upwards: the result is within half a paisa of the price, never half a paisa below it. |
| `CartValidation.Canonical` | backend/src/services/cartValidationService.ts:182-242 | A line is BLOCKED exactly when its product cannot be sold in the store at any quantity, VALID exactly when the request can be met as it stands at an unchanged price, and it has issues exactly when it is not VALID; a line that is not blocked is cut to what is available. |
| `CartValidation.PriceIsTheRows` | backend/src/services/cartValidationService.ts:224-238 | In terms of the rows that were read: a line has its product's price where that is present and positive, and no price otherwise, and its total is that price, rounded to paisa, times the validated quantity. |
| `CartValidation.ClassifyLine` | backend/src/services/cartValidationService.ts:182-242 | The branch-by-branch classification, which rewrites the status, quantity and issues of a line, arrives at that classification. |
| `CartValidation.LoadCanonicalCartItems` | backend/src/services/cartValidationService.ts:135-243 | Fails exactly on an empty cart; otherwise classifies every requested line, in order. |
| `CartValidation.CartValidationService.Validate` | backend/src/services/cartValidationService.ts:85-131 | Every exit of the validation, with its status, store, fee, totals and issues, is the one the assessment function gives. |
| `CartValidation.CorrectionIsFixedPoint` | backend/src/services/cartValidationService.ts:182-242 | Dropping BLOCKED lines and asking again for validated quantities at current prices makes every line VALID in the same state; the correction is empty exactly when nothing could be sold. |
| `CartValidation.CorrectedCartIsReady` | backend/src/services/cartValidationService.ts:85-131 | Resubmitting the correction is READY exactly when its subtotal gets a delivery quote, and fails as an empty cart exactly when nothing could be sold. |
| `CheckoutPricing.FirstErrorAt` | backend/src/services/checkoutService.ts:186-197 | The error of the item check is that of the first line that is not VALID. |
| `CheckoutPricing.PriceItems` | backend/src/services/checkoutService.ts:185-208 | The loop accumulates the sum of rounded paisa times quantity, or stops with the first line's error. |
| `CheckoutPricing.SubtotalsAgree` | backend/src/services/cartValidationService.ts:91 | Validation's sum of line totals equals checkout's sum of rounded paisa times quantity, for every cart and state. |
| `CheckoutPricing.ReadyMeansAccepted` | backend/src/services/checkoutService.ts:174-210 | READY means that the checkout item check accepts every line in that state, with the same subtotal, delivery fee and total. |
| `CheckoutPricing.MissingPriceMeansQuantity` | backend/src/services/checkoutService.ts:186-197 | Checkout reports a missing price exactly when the first line that is not VALID is a product on sale with a quantity out of range; a price that is really missing is reported otherwise. |
| `CheckoutPricing.CheckPassesIff` | backend/src/services/checkoutService.ts:174-197 | The item check passes exactly when every line by itself can be sold and fits what is available. |
| `CheckoutPricing.PerLineCheckIsEnoughIffDistinct` | backend/src/routes/shoppingCart.ts:102 | Passing the item check means that the cart as a whole fits the stock, in every state, if and only if no product is repeated, or some quantity is out of range so that the check never passes. |
| `CartItems.LookUp` | backend/src/services/shoppingCartService.ts:191-195 | The lookup of an add finds a row of the product, and none only when there is none. |
| `CartItems.WriteRepeatsIff` | backend/src/services/shoppingCartService.ts:190-231 | Whatever happened to the cart between an add's two statements, its write leaves a repeated product if and only if it saw no row of the product and there is one by now. |
| `CartItems.RacingAdds` | backend/src/services/shoppingCartService.ts:190-231 | Two adds of a product that each look before the other writes leave two rows of it. |
| `CartItems.ShoppingCart.AddToCart` | backend/src/services/shoppingCartService.ts:163-232 | An add that nothing comes between raises the quantity of its product by exactly its own, leaves all others, and repeats no product. |
| `CartItems.ShoppingCart.ReplaceItems` | backend/src/services/shoppingCartService.ts:29-71 | Replaces the rows by exactly the given items, or, when one of them cannot be sold, leaves all as they were. |
| `ShopDb.FindOrder` | backend/src/services/checkoutService.ts:67-70 | A lookup by customer and key finds a matching order, and none only when there is none. |
| `ShopDb.ReservedIsTheQuery` | backend/src/services/cartValidationService.ts:172-176 | What counts as reserved is the sum of the quantities that the availability query selects: held for an order, or held and not expired. |
| `ShopDb.WholeUnitsIsNearest` | backend/src/services/cartValidationService.ts:165-171 | The stock figure is the integer nearest to the stock, halves away from zero. |
| `ShopDb.ReservationsAreTheLines` | backend/src/services/checkoutService.ts:361-377 | Each line of an order holds its own quantity of its own product in the order's store, for the order and for half an hour. |
| `ShopDb.ReservedByCommit` | backend/src/services/checkoutService.ts:361-377 | A committed checkout raises the counted reservations of its store by exactly its item quantities, and of no other store. |
| `ShopDb.ReservedByCancel` | backend/src/services/checkoutService.ts:472-476 | A cancellation lowers the counted reservations by exactly the share of the rows it releases. |
| `ShopDb.ReservedShrinksWithTime` | backend/src/services/cartValidationService.ts:172-176 | Counted reservations never grow by time passing. |
| `ShopDb.RoundedStockIsSafeIff` | backend/src/services/cartValidationService.ts:164-171 | The arithmetic of the rounding: every quantity up to the rounded figure fits the exact stock if and only if the fraction of a unit is below one half. |
| `CheckoutProtocol.SortByProduct` | backend/src/services/checkoutService.ts:159-163 | The ordered cart rows are a permutation of the cart's rows. |
| `CheckoutProtocol.SortByProductSorts` | backend/src/services/checkoutService.ts:159-163 | The rows come in ascending product order, strictly ascending when products are distinct. |
| `CheckoutSafety.AcceptedLinesFit` | backend/src/services/checkoutService.ts:174-197 | Lines that pass the item check fit the stock that the transaction has read, over and above what is reserved. |
| `CheckoutSafety.OnlyCommitsWrite` | backend/src/services/checkoutService.ts:291-405 | A statement leaves the tables as they were unless it is the commit of a checkout or of a cancellation, which change them as those transactions do. |
| `CheckoutSafety.CommitKeepsDb` | backend/src/services/checkoutService.ts:291-405 | A committing checkout keeps: one order per key, one order per cart, no active cart with an order, and positive reservations. |
| `CheckoutSafety.CommitKeepsStock` | backend/src/services/checkoutService.ts:361-377 | A committing checkout whose rows repeat no product keeps reservations within the stock figure that checkout reads. |
| `CheckoutSafety.CancelKeepsDb` | backend/src/services/checkoutService.ts:465-483 | A committing cancellation keeps the same tables' invariants. |
| `CheckoutSafety.CancelKeepsStock` | backend/src/services/checkoutService.ts:472-476 | A committing cancellation keeps reservations within the stock figure. |
| `CheckoutSafety.OwnStepKeepsTx` | backend/src/services/checkoutService.ts:33-405 | Every statement keeps what its own transaction relies on: no order under its key yet, its cart still active, its lines fitting the stock. |
| `CheckoutSafety.CommitKeepsOther` | backend/src/services/checkoutService.ts:166-172 | A committing checkout does not disturb what any other transaction in flight relies on, because of the locks they hold. |
| `CheckoutSafety.CancelKeepsOther` | backend/src/services/checkoutService.ts:453-483 | Nor does a committing cancellation, although it takes no product locks. |
| `CheckoutSafety.StepKeepsInv` | backend/src/services/checkoutService.ts:31-405 | Every action of the system, among them any change of any cart's rows, keeps the whole invariant. |
| `CheckoutSafety.RunKeepsInv` | backend/src/services/checkoutService.ts:31-405 | So does every run, for any number of transactions in any interleaving. |
| `CheckoutSafety.RunKeepsGuard` | backend/src/services/checkoutService.ts:159-181 | In every run in which held carts are read with harmless rows only, nothing is oversold and no transaction in flight is about to. |
| `CheckoutSafety.NeverOversold` | backend/src/services/checkoutService.ts:159-181 | In every interleaving of checkouts, cancellations, stock additions, cart edits of any kind, failures and passing time in which no checkout reads a repeated product from its held cart (or one that is refused for a quantity), counted reservations stay within the stock figure that checkout reads, hence within half a unit of the exact stock, and within it wherever its fraction is below one half. `CheckoutLimits.SafeIffHarmless` shows that the condition is exact. |
| `CheckoutSafety.OrdersAreUnique` | backend/src/services/checkoutService.ts:33-80 | In every interleaving there is at most one order per customer and idempotency key and per cart, and two checkouts that both created orders differ in key and in cart. |
| `CheckoutSafety.OrdersPersist` | backend/src/services/checkoutService.ts:291-333 | No order is ever removed or changed but for its status. |
| `CheckoutSafety.RetriesNeverCreate` | backend/src/services/checkoutService.ts:67-80 | Once a customer's key has an order, every transaction under that key that is unfinished then or begins later, in every run, is undecided, or ends with that order, a conflict or a failure; it creates nothing and is never refused. |
| `CheckoutSafety.RetriesLeaveTables` | backend/src/services/checkoutService.ts:67-80 | No statement of such a transaction changes the tables, in any reachable state. |
| `CheckoutSafety.FingerprintDecides` | backend/src/services/checkoutService.ts:71-80 | From its fingerprint on, whatever else happens, it ends with the stored order if the fingerprints agree and with a conflict if they differ, unless it fails; so does the lookup after a unique violation. |
| `CheckoutSafety.RetryReturnsStoredOrder` | backend/src/services/checkoutService.ts:33-80 | In every run, waiting and interleaved with anything, a retry that begins after its order exists and does not fail was decided by the cart rows it read at one moment: the stored order if its fingerprint over those rows is the stored one, a conflict if it is not. |
| `CheckoutProgress.WantedIsAboveHeld` | backend/src/services/checkoutService.ts:33-36 | A statement waits for at most one lock, which lies above every lock the transaction holds: key, then rows, then products in ascending order; the lock of a repeated product is held already. |
| `CheckoutProgress.WaitsLeadUpwards` | backend/src/services/checkoutService.ts:151-172 | Whoever is waited for is unfinished and waits, if at all, for a higher lock. |
| `CheckoutProgress.ChainsClimb` | backend/src/services/checkoutService.ts:151-172 | Along any chain of waits the locks waited for only go up. |
| `CheckoutProgress.NoWaitCycle` | backend/src/services/checkoutService.ts:151-172 | The wait-for graph has no cycle. |
| `CheckoutProgress.NoDeadlock` | backend/src/services/checkoutService.ts:151-172 | In every reachable state with an unfinished transaction, some unfinished transaction can take its next statement, other than by failing. |
| `CheckoutProgress.EveryoneCanFinish` | backend/src/services/checkoutService.ts:31-405 | From every reachable state some run of statements, none of which fails, finishes every transaction in flight. |
| `CheckoutProgress.EveryScheduleFinishes` | backend/src/services/checkoutService.ts:31-405 | And every schedule finishes them: it takes no more statements than the transactions had to go, and as long as one is unfinished some statement can follow. |
| `OrderLedger.RunKeepsLedger` | backend/src/services/checkoutService.ts:361-403 | Every run keeps the agreement of order events, reservations and orders. |
| `OrderLedger.LedgerTellsTheOrders` | backend/src/services/checkoutService.ts:386-403 | The events of every order form an unbroken chain from its creation whose end is its status, and the units held for an order that can be cancelled are its items, and none for a cancelled one, whatever is held for orders in fulfilment. |
| `OrderLedger.CancelledIsTerminal` | backend/src/services/checkoutService.ts:459-464 | A cancelled order stays cancelled in every run and gets no further event. |
| `OrderLedger.CancelReleasesExactly` | backend/src/services/checkoutService.ts:472-476 | A cancellation lowers counted reservations by exactly the order's open items plus what is held for its cart. |
| `OrderLedger.CancelUndoesCheckout` | backend/src/services/checkoutService.ts:445-485 | A checkout, any run, then the cancellation of its order: the changes to the counted reservations of every store and product cancel out if and only if no reservation is still counted for the cart itself. |
| `CheckoutCalls.AnswerIsAccepted` | backend/src/services/checkoutService.ts:31-405 | Every statement of a transaction accepts the world's answer and brings the transaction closer to its end. |
| `CheckoutCalls.ScriptRuns` | backend/src/services/checkoutService.ts:31-405 | The statements of a transaction by itself are a run of the concurrent system and end as the call does. |
| `CheckoutCalls.CallIsARun` | backend/src/services/checkoutService.ts:31-405 | So every call of the service is a run of the concurrent system, with the same tables and outcome. |
| `CheckoutCalls.AloneTakesProductLocks` | backend/src/services/checkoutService.ts:166-172 | The lock statement takes the locks of all lines one after the other. |
| `CheckoutCalls.AlonePrices` | backend/src/services/checkoutService.ts:166-197 | Locks, price lookup and item check end in the accepted subtotal or in the first line's error. |
| `CheckoutCalls.CheckoutService.FindByKey` | backend/src/services/checkoutService.ts:67-70 | Finds the stored order of a customer and key. |
| `CheckoutCalls.CheckoutService.InsertReservations` | backend/src/services/checkoutService.ts:361-377 | Appends one held reservation for each line, expiring thirty minutes from the transaction's time. |
| `CheckoutCalls.CheckoutService.CheckItems` | backend/src/services/checkoutService.ts:174-208 | Prices the held cart's lines against the catalogue and stock of the store. |
| `CheckoutCalls.CheckoutService.CreateCodOrder` | backend/src/services/checkoutService.ts:31-430 | The whole call changes the tables and answers exactly as its statements do in the protocol, on every path: stored order, conflict, each refusal, unique violation, new order. |
| `CheckoutCalls.CheckoutService.CreateNew` | backend/src/services/checkoutService.ts:82-430 | The same from the point where no stored order was found. |
| `CheckoutCalls.CheckoutService.LockAndInsert` | backend/src/services/checkoutService.ts:151-430 | The same from the point where the store is chosen. |
| `CheckoutCalls.CheckoutService.PriceAndInsert` | backend/src/services/checkoutService.ts:166-430 | The same from the point where the cart is held. |
| `CheckoutCalls.CheckoutService.ChargeAndInsert` | backend/src/services/checkoutService.ts:210-430 | The same from the point where the items are priced. |
| `CheckoutCalls.CheckoutService.InsertOrder` | backend/src/services/checkoutService.ts:291-405 | The order, its reservations, the cart's conversion and the creation event, committed together. |
| `CheckoutCalls.CheckoutService.CancelCustomerOrder` | backend/src/services/checkoutService.ts:445-485 | The whole cancellation, or its refusal, as its statements do in the protocol. |
| `CheckoutAgreement.CreatesIffOrderable` | backend/src/services/checkoutService.ts:31-430 | A checkout by itself creates an order if and only if no order has its key, a store takes the delivery or pickup, the cart is its customer's active cart there and not empty, every line passes, the delivery is charged and the order number is free; then exactly that order is committed. |
| `CheckoutAgreement.ReadyIffPriced` | backend/src/services/cartValidationService.ts:91-130 | An assessment of the cart's rows is READY exactly when checkout's item check accepts them and the subtotal gets a quote, with the same amounts. |
| `CheckoutAgreement.OrderedIffReady` | backend/src/services/checkoutService.ts:174-289 | In a fixed state and for every delivery request, checkout creates an order if and only if the cart's rows validate as READY and the conditions validation does not look at hold; the order's store, subtotal, fee and total are the validated ones. |
| `CheckoutPromises.TrimIsTheMiddle` | backend/src/services/checkoutService.ts:56-63 | A trimmed text is what is left of a text after taking away white space at its two ends, and has none there itself. |
| `CheckoutPromises.FingerprintsAgreeIff` | backend/src/services/checkoutService.ts:45-66 | Two requests over cart rows have the same fingerprint if and only if the rows agree, in order, and so do customer, cart, address, delivery type, trimmed name and phone, trimmed shipping address, postal code and notes (left out counting as blank), municipality and ward (left out counting as zero) and country. |
| `CheckoutPromises.RepeatIsReplayedIff` | backend/src/services/checkoutService.ts:67-80 | After a call created order i, a call under the same customer and key answers with order i if those fields and the cart rows agree, and with a conflict otherwise; in any tables that still hold the order. |
| `CheckoutPromises.RepeatAfterRun` | backend/src/services/checkoutService.ts:67-80 | So it does after any run of the system that follows the first call. |
| `CheckoutPromises.ItemCheckIs` | backend/src/services/checkoutService.ts:174-204 | The item check passes if and only if every row's product is published with a positive price and the row asks for 1 to 999 units of at most what is free; then the subtotal is the sum, over the rows, of the product's price rounded to paisa times the quantity. |
| `CheckoutPromises.ItemErrorIs` | backend/src/services/checkoutService.ts:186-197 | Otherwise its error is that of the first row that cannot be sold, in terms of the rows that were read. |
| `CheckoutPromises.CreatedOrderIs` | backend/src/services/checkoutService.ts:291-384 | Every order that a call creates is its customer's, from their own active cart of that store, holds that cart's rows and costs what they owe at the prices of their products plus the fee; the cart alone is converted. |
| `CheckoutPromises.PickupIsOrderedIff` | backend/src/services/checkoutService.ts:128-150 | A pickup by itself becomes an order if and only if the key is new, the default store is open, the cart is the customer's active one there with rows that can all be sold, and the order number is free; its fee is zero. |
| `CheckoutPromises.PickupRefusalIs` | backend/src/services/checkoutService.ts:128-204 | The refusals of a pickup, each with its condition, in the order in which they are met. |
| `CheckoutPromises.DeliversIff` | backend/src/services/checkoutService.ts:210-275 | A store delivers at a fee if and only if the customer's saved address is complete, its ward in its municipality, served by that open store, in this market, has a street, and is quoted that fee for the subtotal. |
| `CheckoutPromises.DeliveryIsOrderedIff` | backend/src/services/checkoutService.ts:82-289 | A delivery by itself becomes an order at a store and fee if and only if the key is new, that store delivers what the rows owe at that fee, the cart is the customer's active one there with rows that can all be sold, and the order number is free. |
| `CheckoutPromises.DeliveryStoreRefusalIs` | backend/src/services/checkoutService.ts:91-150 | Why no store takes a delivery: each reason with its condition, in the order in which they are met. |
| `CheckoutPromises.CancelsIff` | backend/src/services/checkoutService.ts:453-483 | A cancellation by itself succeeds if and only if the order exists, is the caller's and is pending, pending payment or confirmed; then that order alone becomes CANCELLED, and otherwise the tables are unchanged. |
| `CheckoutPromises.CancellingStep` | backend/src/services/checkoutService.ts:453-464 | Whatever is interleaved, an action by which an order becomes CANCELLED is a statement of a cancellation by the order's own customer, which finds it open. |
| `CheckoutPromises.OnlyItsCustomerCancels` | backend/src/services/checkoutService.ts:453-483 | In every run, an order that becomes CANCELLED was cancelled by a transaction of its own customer. |
| `CheckoutPromises.ReadySubtotalIs` | backend/src/services/cartValidationService.ts:91-131 | A READY validation asks for exactly what its rows owe at the prices of their products, plus the quoted fee. |
| `CheckoutPromises.IssuesAre` | backend/src/services/cartValidationService.ts:182-242 | The issues, status, quantity and available units of every line, branch by branch, in terms of the rows that were read. |
| `CheckoutPromises.AssessmentIs` | backend/src/services/cartValidationService.ts:85-130 | For an address that can be served: BLOCKED if there is no quote or a blocked line, else CHANGES_REQUIRED if a line needs a change, else READY; with the subtotal, total, fee and issues of each. |
| `CheckoutPromises.RejectionIs` | backend/src/services/cartValidationService.ts:31-83 | Which addresses are rejected, with which issue, and with no store, lines or amounts. |
| `CheckoutLimits.RepeatedOversells` | backend/src/services/checkoutService.ts:159-181 | For all rows in range that repeat a product there is a stock that their checkout oversells. |
| `CheckoutLimits.SafeIffHarmless` | backend/src/services/checkoutService.ts:159-181 | Over all runs, with any edits of carts: reservations stay within the stock figure that checkout reads if and only if, whenever a checkout reads its held cart, no product is repeated in it, or some quantity is out of range. |
| `CheckoutLimits.RacedAddsOversell` | backend/src/services/shoppingCartService.ts:190-231 | A run with two racing adds of one unit each and one unit in stock ends with two units reserved. |
| `CheckoutLimits.LastUnitOversells` | backend/src/services/cartValidationService.ts:164-171 | Every checkout that asks for all that the rounded figure leaves oversells the exact stock if its fraction of a unit is one half or more. |
| `CheckoutLimits.ShopOversells` | backend/src/services/cartValidationService.ts:164-171 | A concrete shop for every such stock: nothing or anything reserved before, one checkout of up to 999 units, more reserved than there is. |
| `CheckoutLimits.StaysWithinIff` | backend/src/services/checkoutService.ts:159-181 | Over all runs that start within the exact stock and read no repeated product, reservations stay within a stock of h hundredths if and only if its fraction of a unit is below one half. |
| `CheckoutLimits.CancelReleasesTheCartToo` | backend/src/services/checkoutService.ts:472-476 | Ordering a cart that has a reservation of its own and cancelling the order leaves fewer units reserved than before, by exactly the cart's own. |
| `BatchInventory.GreedyTakes` | backend/src/services/batchService.ts:164-184 | The loop's choice covers exactly the smaller of the request and the total, and takes no more from any batch than it holds. |
| `BatchInventory.GreedyTouchesPrefix` | backend/src/services/batchService.ts:164-180 | The batches touched form a prefix in expiry order, and all of them but the last are emptied. |
| `BatchInventory.GreedyDominates` | backend/src/services/batchService.ts:164-180 | Among all ways to take the same quantity, none has taken more after any number of batches in expiry order. |
| `BatchInventory.FifoOrderIsListed` | backend/src/services/batchService.ts:142-149 | The query's rows are exactly the positive batches of the product in the store, and their sum is its stock. |
| `BatchInventory.FifoIsEarliestFirst` | backend/src/services/batchService.ts:142-149 | In raw dates: the query lists exactly the batches of the product in the store with a positive quantity, none after one that expires later or has no date. |
| `BatchInventory.DeductionTakesEarliestFirst` | backend/src/services/batchService.ts:155-187 | If a row gave something, every row of the product in the store with an earlier expiry date, or with a date where that one has none, ends at zero. |
| `BatchInventory.DeductionEffect` | backend/src/services/batchService.ts:155-187 | Row by row: each listed batch gives what the loop takes and stays non-negative, every other row is unchanged, and a request beyond the stock leaves every listed batch at zero. |
| `BatchInventory.BatchService.GetProductBatchesForFIFO` | backend/src/services/batchService.ts:138-150 | Returns the positive batches of the product in the store, each once, earliest expiry first. |
| `BatchInventory.BatchService.TakeFromRow` | backend/src/services/batchService.ts:169-176 | Subtracts the amount from the row with that id and changes nothing else. |
| `BatchInventory.BatchService.DeductFromBatch` | backend/src/services/batchService.ts:155-187 | The table ends as the greedy choice says, with every batch emptied that expires before one that gave something; it fails exactly when the total does not cover a positive request, and then with every batch already drained. |
| `BatchInventory.BatchService.MergeBatches` | backend/src/services/batchService.ts:404-440 | With an integer column, the target receives the sources' quantity and average cost and the sources are deleted. With a decimal column the same happens if and only if there is no source row, or one whose quantity is not negative; otherwise the update is refused and nothing changes. |
| `BatchInventory.AddUp` | backend/src/services/batchService.ts:413-419 | The loop adds numbers up; decimal texts it joins, and gets a number exactly in those cases. |
| `BatchInventory.JoinedIsTotalIff` | backend/src/services/batchService.ts:417 | The joined decimal texts read as a number if and only if there is no source, or one whose quantity is not negative, and then as the total. |
| `BatchInventory.MergeConservesQuantityIff` | backend/src/services/batchService.ts:404-440 | A merge that is not refused conserves total quantity if and only if nothing was moved or the target exists and is not a source; otherwise exactly the moved quantity is lost. |
| `BatchInventory.MergeConservesValueIff` | backend/src/services/batchService.ts:421-432 | For a target outside the sources, total value is conserved if and only if the target held nothing or already had the sources' average cost. |
| `BatchInventory.LostMergeLosesValue` | backend/src/services/batchService.ts:424-437 | For a missing target, or one among the sources, all that the sources were worth is lost. |
| `BatchInventory.AverageIsBetween` | backend/src/services/batchService.ts:413-421 | Where the quantities add up, the cost that is written lies between the lowest and highest cost of the sources. |
| `EventQueue.AttemptIsAccounted` | backend/src/services/analyticsPipelineService.ts:79-123 | One attempt, whether it succeeds, fails or dies, leaves the row in agreement with the history of its attempts. |
| `EventQueue.NextIsMostUrgent` | backend/src/services/analyticsPipelineService.ts:54-65 | The selected event is pending, or retrying with its time reached, and every other such event has a greater priority number, or the same one and no earlier creation; in raw fields and in both directions. |
| `EventQueue.AttemptLeaves` | backend/src/services/analyticsPipelineService.ts:69-123 | What an attempt leaves of an event: one more attempt counted; processed, or put off by 2^n minutes after n earlier attempts, or failed when they were used up. |
| `EventQueue.WorkedInOrder` | backend/src/services/analyticsPipelineService.ts:54-65 | In every run without replay or reset, with failures, crashes, time and new events, an event that is pending from the start is worked on before any event that comes after it in (priority, creation) is. |
| `EventQueue.RunKeepsInv` | backend/src/services/analyticsPipelineService.ts:52-124 | Every run without replay or reset keeps that agreement for every event. |
| `EventQueue.AttemptsAreBounded` | backend/src/services/analyticsPipelineService.ts:97-120 | Without replay or reset the handler is started at most max_retries + 1 times for an event, whether its row is still there or was cleaned up; one that ended FAILED used them all, with delays adding up to exactly 2^max_retries - 1 minutes, and took at least that long. |
| `EventQueue.StartsAreBounded` | backend/src/services/analyticsPipelineService.ts:316-381 | With replays and resets, it is started at most max_retries + 1 times for each time the event got its attempts, in every run. |
| `EventQueue.StartsReachTheBound` | backend/src/services/analyticsPipelineService.ts:316-340 | For every number of replays some run reaches that bound. |
| `EventQueue.BackoffSum` | backend/src/services/analyticsPipelineService.ts:98-100 | The first n delays add up to 2^n - 1 minutes. |
| `EventQueue.BackoffDoubles` | backend/src/services/analyticsPipelineService.ts:99 | Each delay is twice the one before, from one minute on. |
| `EventQueue.StepKeepsSound` | backend/src/services/analyticsPipelineService.ts:52-381 | Every step, replay and reset included, leaves a pending event without attempts and a retrying one with attempts to spare and a time. |
| `EventQueue.WorkUsesUp` | backend/src/services/analyticsPipelineService.ts:69-123 | Every step that works on an event lowers the sum of remaining attempts over unsettled events, even if the worker dies. |
| `EventQueue.WorkIsBounded` | backend/src/services/analyticsPipelineService.ts:276-295 | So no run of working and waiting works more often than that sum. |
| `EventQueue.QueueDrains` | backend/src/services/analyticsPipelineService.ts:52-124 | However the handler behaves, and whatever was replayed or reset before, some working and waiting settles every event as PROCESSED or FAILED. |
| `EventQueue.EveryScheduleSettles` | backend/src/services/analyticsPipelineService.ts:52-124 | And every schedule of working and waiting does: it has worked no more often than attempts were left, and unless every event is settled it can work again after some time. |
| `EventQueue.ResetsRemoveTheBound` | backend/src/services/analyticsPipelineService.ts:370-381 | With resets of a dying worker there is no bound: for every n some run starts the handler n times for one event. |
| `EventQueue.AnalyticsPipelineService.SelectNext` | backend/src/services/analyticsPipelineService.ts:54-65 | Selects a due event with the least priority number, and the earliest creation among equals, and none only when none is eligible. |
| `EventQueue.AnalyticsPipelineService.ProcessNextEvent` | backend/src/services/analyticsPipelineService.ts:52-124 | Works on exactly that event with the outcome of the handler, or changes nothing when none is eligible. |
| `EventQueue.AnalyticsPipelineService.ProcessBatch` | backend/src/services/analyticsPipelineService.ts:276-295 | Stops when the batch is full or nothing is eligible, starts the handler once for each event it counts, counts as processed exactly those that became PROCESSED, and never works more than the remaining attempts. |
| `EventQueue.AnalyticsPipelineService.ReplayFailedEvents` | backend/src/services/analyticsPipelineService.ts:316-340 | Restarts exactly the FAILED events among the ids, while every id counts as replayed. |
| `EventQueue.AnalyticsPipelineService.ResetStuckEvents` | backend/src/services/analyticsPipelineService.ts:370-381 | Restarts exactly the stuck events and counts them; none is stuck afterwards. |
| `EventQueue.AnalyticsPipelineService.CleanupOldEvents` | backend/src/services/analyticsPipelineService.ts:345-353 | An event remains if and only if it was there and is not an old processed one, the rest keep their order, and the count is the number of old ones. |
| `Migrations.Prior` | backend/src/database/migrationRunner.ts:135-140 | The lookup finds a recorded checksum, and none only when the id has no record. |
| `Migrations.MigrationDatabase.RunMigrations` | backend/src/database/migrationRunner.ts:77-168 | The whole run, dying after any number of its statements, leaves the database and outcome that the statement-by-statement specification gives. |
| `Migrations.MigrationDatabase.RecordBaseline` | backend/src/database/migrationRunner.ts:93-119 | Records the baseline one committed row at a time: all of it, or as many rows as there were statements left. |
| `Migrations.MigrationDatabase.MainLoop` | backend/src/database/migrationRunner.ts:120-164 | The loop over the manifest, with its transactions and early exits. |
| `Migrations.ApplyResumes` | backend/src/database/migrationRunner.ts:120-164 | Wherever a run ends, also one that continues others, the entries dealt with are the first ones of the manifest: the unrecorded ones among them executed and recorded, in order and once each, their SQL having worked in its turn, and the stop is the entry that the outcome names. |
| `Migrations.ApplyAdds` | backend/src/database/migrationRunner.ts:135-164 | A run only adds, and returns exactly what it added. |
| `Migrations.MismatchStopsTheRun` | backend/src/database/migrationRunner.ts:139-143 | A checksum mismatch stops the run before the mismatched entry and all later ones take effect. |
| `Migrations.RunsResume` | backend/src/database/migrationRunner.ts:77-168 | On any database that is not a legacy one, any number of runs, each dying anywhere or failing, have together dealt with some first entries as one run would have. |
| `Migrations.RunsConverge` | backend/src/database/migrationRunner.ts:77-168 | After any such history a run that completes leaves what one uninterrupted run would have left: every unrecorded entry executed and recorded once, in manifest order; it returns what was missing. |
| `Migrations.CompletesIff` | backend/src/database/migrationRunner.ts:120-164 | An uninterrupted run completes if and only if no checksum differs and the SQL of every unrecorded entry works in its turn, on the schema as it then is. |
| `Migrations.RunsComplete` | backend/src/database/migrationRunner.ts:120-164 | So does one after any crashes, if that holds from the start. |
| `Migrations.FreshStaysPrefix` | backend/src/database/migrationRunner.ts:77-168 | On a fresh database any crashes and failures leave exactly a prefix of the manifest, recorded if and only if executed. |
| `Migrations.FreshConverges` | backend/src/database/migrationRunner.ts:77-168 | And a run that completes leaves exactly the manifest, each entry executed once and in order. |
| `Migrations.RerunIsEmpty` | backend/src/database/migrationRunner.ts:139-144 | A run on a database that a run has completed changes nothing and returns an empty list. |
| `Migrations.LegacyRun` | backend/src/database/migrationRunner.ts:86-119 | An uninterrupted run on a legacy database completes if and only if the rest of the manifest works on top of what is there; then it has recorded exactly the baseline without executing it and executed exactly the rest, for every manifest and baseline set. |
| `Migrations.BaselineAndRestDivide` | backend/src/database/migrationRunner.ts:26-30 | Baseline and rest divide the manifest: each entry is in exactly one of them, by whether its id is a legacy one, and both keep the manifest's order. |
| `Migrations.LegacyCrash` | backend/src/database/migrationRunner.ts:93-119 | A process that dies while it records the baseline, or just after, leaves its first rows. |
| `Migrations.PartlyRecordedIsStuck` | backend/src/database/migrationRunner.ts:135-158 | A legacy database left with some but not all baseline rows never completes a run again, whatever runs there are, because the SQL of the next baseline entry fails on a schema that holds its effects; that entry never gets a record. |
| `Migrations.LegacyCrashConvergesIff` | backend/src/database/migrationRunner.ts:86-164 | After a process that died with j baseline rows recorded, the next uninterrupted run completes, with the effects and records of an undisturbed one, if and only if j is zero or all of them; in between no later run ever completes. |
| `LoginLockout.StaffTable.Login` | backend/src/routes/operationsAuth.ts:58-118 | One request: refused, refused for MFA or logged in, with the counter and lock updated for that account alone. |
| `LoginLockout.StaffTable.RecordFailure` | backend/src/routes/operationsAuth.ts:70 | The failure update: one more attempt, and from the fifth on a lock of fifteen minutes from now. |
| `LoginLockout.LoginIs` | backend/src/routes/operationsAuth.ts:58-118 | The exact conditions of each reply, and the counter and lock it leaves: a session needs all of it, the second factor alone missing is told apart, everything else is refused in the same way; every failure counts, and from the fifth on locks for fifteen minutes from then. |
| `LoginLockout.LockHolds` | backend/src/routes/operationsAuth.ts:63-98 | For fifteen minutes after the fifth and every later unlocked failure everything is refused, right password or not, and each such request starts the minutes over. |
| `LoginLockout.FailuresAreSpaced` | backend/src/routes/operationsAuth.ts:63-98 | In any run in which the account does not log in, whatever other accounts do, its unlocked failures from the fifth on come at least fifteen minutes apart. |
| `LoginLockout.GuessesAreBounded` | backend/src/routes/operationsAuth.ts:63-98 | Any window of length T of such a run holds at most 5 + floor(T / 15 minutes) unlocked failures of the account. |
| `LoginLockout.BoundIsAttained` | backend/src/routes/operationsAuth.ts:63-98 | For every length there is a run that reaches the bound. |
| `LoginLockout.QuietAccountLogsIn` | backend/src/routes/operationsAuth.ts:115-118 | Fifteen minutes after the last request, good credentials log in, and nothing else does, and the counter starts over. |
| `LoginLockout.OthersAreUntouched` | backend/src/routes/operationsAuth.ts:58-118 | Requests for other accounts change nothing of this one. |
| `AuditTrail.CalculateChangedFields` | backend/src/services/auditTrailService.ts:230-248 | The loop over all keys computes the changed fields in order of first appearance. |
| `AuditTrail.ChangedFieldsAreExact` | backend/src/services/auditTrailService.ts:230-248 | Exactly the fields whose values differ, or that only one object has, are listed, each once; none when either object is missing. |
| `AuditTrail.ChangedFieldsAreInOrder` | backend/src/services/auditTrailService.ts:230-248 | They are listed in the order in which the names first appear in the old, then the new object. |
| `AuditTrail.RowIs` | backend/src/services/auditTrailService.ts:28-93 | Which value stands in which column of the stored row, an empty text as none; the previous hash is that of a row than which none is later. |
| `AuditTrail.HashedAlikeIff` | backend/src/services/auditTrailService.ts:52-64 | Two entries are hashed alike if and only if previous hash, action, entity type, entity id, request id, old and new values agree, an empty value counting as none. |
| `AuditTrail.IndicesAscend` | database/expansion_phase5_compliance_schema.sql:137-138 | Of the stored members, those named by array indices read back first, in ascending order of their numbers. |
| `AuditTrail.NamesAreOrdered` | database/expansion_phase5_compliance_schema.sql:137-138 | Of two other names the shorter comes first, and of two of one length the one with the smaller character at the first difference. |
| `AuditTrail.AuditTrailService.RecordEntry` | backend/src/services/auditTrailService.ts:28-93 | Appends one row that links to the latest row's hash, or to the empty string, carries the hash of the payload as it was passed, and holds the values as its JSONB and UUID columns keep them; an entity id that the column refuses appends nothing. |
| `AuditTrail.ReadsBackIff` | database/expansion_phase5_compliance_schema.sql:137-138 | An object reads back from its JSONB column as it was passed if and only if its members, at all depths, were in the column's order. |
| `AuditTrail.StoredIsPermutation` | database/expansion_phase5_compliance_schema.sql:137-138 | Nothing but the order of members changes. |
| `AuditTrail.AppendsChain` | backend/src/services/auditTrailService.ts:48-66 | After any serial appends every row links to its predecessor, carries the hash of what was passed, and holds that as its columns keep it. |
| `AuditTrail.RowsLink` | backend/src/services/auditTrailService.ts:48-51 | Each row of a chain names the hash of the row before it. |
| `AuditTrail.LastHashDeterminesTrail` | backend/src/services/auditTrailService.ts:51-66 | Two chains end in the same hash if and only if their hashed payloads are the same sequence, of the same length. |
| `AuditTrail.LastHashDeterminesHistory` | backend/src/services/auditTrailService.ts:43-93 | Two serial histories end in the same hash if and only if they recorded the same actions, entities, values with their member order, and request ids in the same order; who acted and from where is not covered. |
| `AuditTrail.HashesAreDistinct` | database/015_phase08_analytics_audit.sql:7 | The hashes of a chain are pairwise different, so the unique index never refuses an append. |
| `AuditTrail.RecomputesIff` | backend/src/services/auditTrailService.ts:52-64 | Hashing a stored row again gives its hash if and only if its objects were passed in the order of the columns and its entity id in the form of the column. |
| `AuditTrail.StoredRowNeedNotRecompute` | backend/src/services/auditTrailService.ts:52-64 | With the old values {bb: 1, a: 2}, for one, it does not. |
| `CsvExport.QuotedReadsBack` | backend/src/services/auditTrailService.ts:206-207 | A reader that undoubles quotes gets back any escaped value and stops at its closing quote. |
| `CsvExport.RecordReadsBack` | backend/src/services/auditTrailService.ts:210-222 | A reader gets back any record of escaped values, whatever records follow. |
| `CsvExport.ExportReadsBack` | backend/src/services/auditTrailService.ts:206-224 | A reader of section 2 of RFC 4180, with a line feed as separator, recovers the header and exactly every value of every row, with any quotes, commas and line breaks. |
| `CsvExport.ValuesStandUnderTheirNames` | backend/src/services/auditTrailService.ts:206-224 | Under each name of the header a reader finds, for every row, that value of the row and no other. |
| `CsvExport.ExportIsFaithful` | backend/src/services/auditTrailService.ts:206-224 | Two exports are the same text if and only if they hold the same values. |
| `Prices.PriceTable.UpdatePrice` | backend/src/routes/admin.ts:1228-1252 | Closes the active rows of the product's store-or-organization scope and appends an active row from now on, changing no other row. |
| `Prices.UpdatesKeepVersions` | backend/src/routes/admin.ts:1228-1252 | Serial updates keep the rows of each scope in succession without overlap. |
| `Prices.ScopesNeverOverlap` | backend/src/routes/admin.ts:1228-1252 | Each scope has at most one active row, and no instant is covered by two of its rows. |
| `Prices.UpdateShows` | backend/src/routes/admin.ts:1228-1252 | An update takes effect from its own time on and changes no earlier price and no other scope's. |
| `Prices.PriceAtIsTheLast` | backend/src/routes/admin.ts:1228-1252 | The price of a scope at an instant is that of its update that is not later and after which no such update comes. |
| `Prices.RowsAreTheHistory` | backend/src/routes/admin.ts:1228-1252 | For every scope and instant, the row that covers the instant holds the price of the scope's last update up to then. |
| `Prices.AdminAgreesWithCheckout` | backend/src/services/cartValidationService.ts:146-160 | The admin panel's single query and checkout's coalesce of two lookups have the same answers for every store. |
| `Prices.QueriesFindPriceInForce` | backend/src/routes/admin.ts:1092-1100 | Both find the price last set for the store, or else the one last set for the organization. |
| `Founding.StatementKeepsInv` | backend/src/routes/founding.ts:84-146 | Every statement of a join keeps the numbering exact and the members it has. |
| `Founding.NumbersHaveNoGaps` | backend/src/routes/founding.ts:84-146 | In every interleaving of joins, failures and changes of the campaign, the numbers handed out are exactly 1 up to the count, one for each member, never beyond the capacity, and no member is lost or renumbered. |
| `Founding.CountIsMembership` | backend/src/routes/founding.ts:132-137 | So the count is the number of members. |
| `Founding.RejoinRun` | backend/src/routes/founding.ts:86-95 | A member who joins again is told the same number or gets a failure, whatever happens in between. |
| `Founding.NumbersIdentifyCustomers` | backend/src/routes/founding.ts:116-142 | Two joins that were given numbers got the same number if and only if they are of the same customer. |
| `Founding.RefusalsAreExact` | database/035_founding_1000.sql:17-28 | The number index is never hit; a duplicate means the customer became a member meanwhile, a refused number that the last admissible one is taken, and full that the count equals the capacity. |
| `Founding.ClosedAdmitsNobody` | backend/src/routes/founding.ts:97-107 | Over every run from a moment at which the campaign is closed or missing and nobody holds its lock, until someone opens it, nobody becomes a member, and a join that begins then ends with closed, the number its customer already had, or a failure. |
| `Founding.JoinIs` | backend/src/routes/founding.ts:84-142 | The exact condition of every reply: a new member is one who is not a member while the campaign is open and the next number, which is one more than the members, is within the capacity and 1000. |
| `Founding.FoundingCampaign.Join` | backend/src/routes/founding.ts:84-142 | A join by itself: existing member, closed, full, refused by a constraint, or the next number, with both tables changed together. |
| `Founding.CallIsTheStatements` | backend/src/routes/founding.ts:84-142 | The statements of a join that nothing interrupts are that call. |
| `QueryHash.Int32IsTheResidue` | backend/src/services/cacheService.ts:226 | The 32-bit value is the one in the signed range that is congruent modulo 2^32. |
| `QueryHash.HashQuery` | backend/src/services/cacheService.ts:221-229 | The loop computes the signed 32-bit value of the base-31 polynomial in the code units and prints its magnitude in base 36. |
| `QueryHash.ParsePrinted` | backend/src/services/cacheService.ts:228 | The printed key can be read back to the number. |
| `QueryHash.KeyIsShort` | backend/src/services/cacheService.ts:228 | A key has at most six digits. |
| `QueryHash.SameKeyIff` | backend/src/services/cacheService.ts:221-229 | Two queries share a cache key if and only if their polynomials are equal or opposite modulo 2^32. |
| `QueryHash.ExchangeablePart` | backend/src/services/cacheService.ts:222-227 | Equally long parts with equal polynomials can be exchanged anywhere in a query without changing its key. |
| `QueryHash.DifferentQueriesShareAKey` | backend/src/services/cacheService.ts:221-229 | So every query that contains "Aa" shares its key with a different query. |

## Left out

- Delivery zones, store choice and quotes (`deliveryZoneService` is not part of this model): they are functions whose answers are parameters.
- Other writers of the tables of checkout: web order fulfilment, point of sale, stock reservations of other services, other changes of cart or order status.
- Stock decreases by `deductFromBatch` and `adjustBatchQuantity` as steps of the system that never oversells: they do not consult reservations, so nothing is claimed across them. Stock is added by `addBatchInventory` and by opening stock, both as one step that adds to a product's figure.
- Shared row locks (`FOR SHARE`), lock timeouts and the server's own deadlock detection, except as a step that fails.
- Order columns that only copy text, event reasons and metadata, order numbers (their collision is an input of the call) and the unit prices stored with the items.
- CheckoutProtocol.SortByProduct: product identifiers are numbers here, where the source orders UUIDs and compares them as the database does.
- CartItems.ShoppingCart.AddToCart: prices, line totals and metadata of the rows; in the protocol any change of a cart's rows is one action, whatever statements make it.
- CartValidation.Canonical: prices that are not numbers are taken as missing prices, and floating-point drift is not modelled: amounts are exact.
- BatchInventory.BatchService.DeductFromBatch: one caller at a time; quantities are whole numbers of the column's smallest unit (the service's arithmetic turns decimal text into numbers there).
- BatchInventory.BatchService.MergeBatches: rounding of the cost column, missing costs, and the failures other than the refused quantity.
- EventQueue.AnalyticsPipelineService.ProcessNextEvent: one worker, because the row lock ends with the first statement; the time of all statements of one attempt is the same; the handlers themselves are a function that says whether they succeed.
- Migrations.MigrationDatabase.RunMigrations: files, checksums and manifest are inputs; a migration's SQL either takes effect or fails, as a function of its id and the effects in place; two runners at once.
- LoginLockout.StaffTable.Login: requests one at a time, one clock for application and database, usernames already in lower case; passwords, one-time codes, sessions and the security events are booleans or left out.
- AuditTrail.AuditTrailService.RecordEntry: appends one at a time with increasing times; old and new values are objects, or left out, with whole numbers; other values, over-long texts and characters that JSONB refuses are left out; names are ordered by their characters, where the column orders bytes; concurrent appends can fork the chain.
- CsvExport.ExportReadsBack: the search that selects the rows and its limits; values and timestamps come as the text they print as.
- Prices.PriceTable.UpdatePrice: updates one at a time in order of time, as its invariants need; original price and currency, and the bulk import, which closes and inserts many products at once.
- Founding.FoundingCampaign.Join: display name, ward and source, which are stored as given.
- Routes, request parsing, sessions, authorization, network clients, reports, dashboards and plain record keeping.
