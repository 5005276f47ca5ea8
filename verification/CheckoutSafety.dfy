// What every interleaving of checkouts, cancellations and everything else keeps: reserved
// quantities within the stock, and one order per key and per cart.
module CheckoutSafety {
  import opened Basics
  import opened Identifiers
  import opened CartValidation
  import opened CheckoutPricing
  import opened ShopDb
  import opened CheckoutProtocol

  /******* The invariant *******/

  predicate PositiveReservations(db: Db) {
    forall i :: 0 <= i < |db.reservations| ==> db.reservations[i].quantity > 0
  }

  predicate OneOrderPerKey(db: Db) {
    forall i, j :: 0 <= i < j < |db.orders| ==>
      db.orders[i].customer != db.orders[j].customer || db.orders[i].key != db.orders[j].key
  }

  predicate OneOrderPerCart(db: Db) {
    forall i, j :: 0 <= i < j < |db.orders| && db.orders[i].cart.Some? ==> db.orders[i].cart != db.orders[j].cart
  }

  // A cart that has an order is no longer active.
  predicate OrderedCartsConverted(db: Db) {
    forall i :: 0 <= i < |db.orders| && db.orders[i].cart.Some? ==>
      db.orders[i].cart.value in db.carts && db.carts[db.orders[i].cart.value].status != Active
  }

  ghost predicate DbInv(db: Db) {
    PositiveReservations(db) && OneOrderPerKey(db) && OneOrderPerCart(db) && OrderedCartsConverted(db)
  }

  predicate NoOrderFor(db: Db, customer: CustomerId, key: string) {
    forall i :: 0 <= i < |db.orders| ==> db.orders[i].customer != customer || db.orders[i].key != key
  }

  // Every line fits what is left of the stock, counting reservations as of the transaction's start.
  predicate Fits(db: Db, store: StoreId, lines: seq<Line>, start: int) {
    forall i :: 0 <= i < |lines| ==>
      1 <= lines[i].quantity <= 999
      && Reserved(db.reservations, store, lines[i].product, start) + lines[i].quantity <= OnHand(db, store, lines[i].product)
  }

  predicate PastLookup(pc: Pc) {
    pc.NewRequest? || pc.StoreChosen? || HasCart(pc)
  }

  predicate CheckoutInv(db: Db, req: Request, start: int, pc: Pc) {
    (PastLookup(pc) ==> NoOrderFor(db, req.customer, req.key))
    && (HasCart(pc) ==> CartAvailable(db, req, pc.store))
    && (HasLines(pc) ==> Sorted(pc.lines) && pc.lines != [])
    && (pc.Checked? || pc.Charged? ==> Fits(db, pc.store, pc.lines, start))
    && (pc.Finished? && (pc.outcome.Created? || pc.outcome.Replayed?) ==>
          pc.outcome.order < |db.orders|
          && db.orders[pc.outcome.order].customer == req.customer && db.orders[pc.outcome.order].key == req.key)
    && (pc.Finished? && pc.outcome.Created? ==> db.orders[pc.outcome.order].cart == Some(req.cart))
    && (pc == Finished(Conflict) ==> !NoOrderFor(db, req.customer, req.key))
  }

  predicate TxInv(db: Db, tx: Tx) {
    WellFormed(tx) && tx.start <= db.now
    && (tx.job.Checkout? ==> CheckoutInv(db, tx.job.req, tx.start, tx.pc))
    && (tx.job.Cancellation? && tx.pc.Finished? ==> !tx.pc.outcome.Created?)
  }

  predicate MutualExclusion(sys: System)
    requires Legal(sys)
  {
    forall t, u :: t in sys.txs && u in sys.txs && t != u ==> HeldBy(sys.txs[t]) !! HeldBy(sys.txs[u])
  }

  predicate Creator(tx: Tx, order: nat) {
    tx.pc == Finished(Created(order))
  }

  // No order was created by two transactions.
  ghost predicate CreatedOnce(sys: System) {
    forall t, u, i: nat :: t in sys.txs && u in sys.txs && Creator(sys.txs[t], i) && Creator(sys.txs[u], i) ==> t == u
  }

  ghost predicate SysInv(sys: System) {
    Legal(sys) && DbInv(sys.db) && MutualExclusion(sys) && CreatedOnce(sys)
    && (forall t :: t in sys.txs ==> TxInv(sys.db, sys.txs[t]))
  }

  /******* One transaction's own step *******/

  lemma AcceptedLinesFit(db: Db, tx: Tx, pc: Pc)
    requires pc.PricesRead?
    requires ItemCheck(CheckoutLines(pc.lines, StoreView(pc.products, StockRows(db, pc.store, pc.lines, tx.start)))).Ok?
    ensures Fits(db, pc.store, pc.lines, tx.start)
  {
    var view := StoreView(pc.products, StockRows(db, pc.store, pc.lines, tx.start));
    var checked := CheckoutLines(pc.lines, view);
    forall i | 0 <= i < |pc.lines|
      ensures 1 <= pc.lines[i].quantity <= 999
      ensures Reserved(db.reservations, pc.store, pc.lines[i].product, tx.start) + pc.lines[i].quantity
           <= OnHand(db, pc.store, pc.lines[i].product)
    {
      assert checked[i].status == Valid;
      assert Sellable(Requests(pc.lines)[i], view);
      assert pc.lines[i].product in view.stocks;
    }
  }

  // A committing checkout keeps every invariant of the tables.
  lemma CommitKeepsDb(db: Db, tx: Tx)
    requires DbInv(db) && TxInv(db, tx) && tx.job.Checkout? && tx.pc.Charged?
    ensures DbInv(CommitOrder(db, NewOrder(tx.job.req, tx.pc), tx.start))
  {
  }

  lemma CancelKeepsDb(db: Db, order: nat)
    requires DbInv(db) && order < |db.orders|
    ensures DbInv(CancelOrder(db, order))
  {
  }

  // Only a commit changes the tables.
  lemma OnlyCommitsWrite(db: Db, tx: Tx, input: Input)
    requires WellFormed(tx) && TxNext(db, tx, input).Some?
    ensures
      var (db', tx') := TxNext(db, tx, input).value;
      db' == db
      || (tx.job.Checkout? && tx.pc.Charged? && tx'.pc == Finished(Created(|db.orders|))
          && tx.job.req.cart in db.carts && db' == CommitOrder(db, NewOrder(tx.job.req, tx.pc), tx.start))
      || (tx.job.Cancellation? && tx'.pc == Finished(CancelDone) && tx.job.order < |db.orders|
          && Cancellable(db.orders[tx.job.order].status) && db' == CancelOrder(db, tx.job.order))
  {
  }

  lemma OwnStepKeepsTables(db: Db, tx: Tx, input: Input)
    requires DbInv(db) && TxInv(db, tx) && TxNext(db, tx, input).Some?
    ensures DbInv(TxNext(db, tx, input).value.0)
  {
    OnlyCommitsWrite(db, tx, input);
    if tx.job.Checkout? && tx.pc.Charged? {
      CommitKeepsDb(db, tx);
    } else if tx.job.Cancellation? && tx.job.order < |db.orders| {
      CancelKeepsDb(db, tx.job.order);
    }
  }

  ghost predicate KeepsOwn(db: Db, tx: Tx, input: Input)
    requires WellFormed(tx)
  {
    TxNext(db, tx, input).Some? ==> TxInv(TxNext(db, tx, input).value.0, TxNext(db, tx, input).value.1)
  }

  lemma EarlyStepKeepsTx(db: Db, tx: Tx, input: Input)
    requires DbInv(db) && TxInv(db, tx) && tx.job.Checkout?
    requires tx.pc.Begun? || tx.pc.KeyHeld? || tx.pc.NewRequest? || tx.pc.StoreChosen? || tx.pc.Checked?
    ensures KeepsOwn(db, tx, input)
  {
  }

  lemma LookupIsExact(db: Db, req: Request, fp: Fingerprint)
    ensures Stored(db, req, fp) == None ==> NoOrderFor(db, req.customer, req.key)
    ensures Stored(db, req, fp).Some? ==> CheckoutInv(db, req, 0, Finished(Stored(db, req, fp).value))
  {
    var found := FindOrder(db.orders, req.customer, req.key);
    assert found.None? ==> NoOrderFor(db, req.customer, req.key);
  }

  lemma LookupKeepsTx(db: Db, tx: Tx, input: Input)
    requires DbInv(db) && TxInv(db, tx) && tx.job.Checkout? && (tx.pc.Fingerprinted? || tx.pc.Violated?)
    ensures KeepsOwn(db, tx, input)
  {
    LookupIsExact(db, tx.job.req, tx.pc.fp);
  }

  lemma CartRowsKeepTx(db: Db, tx: Tx, input: Input)
    requires DbInv(db) && TxInv(db, tx) && tx.job.Checkout? && tx.pc.CartHeld?
    ensures KeepsOwn(db, tx, input)
  {
    SortByProductSorts(db.carts[tx.job.req.cart].items);
  }

  lemma LockingKeepsTx(db: Db, tx: Tx, input: Input)
    requires TxInv(db, tx) && tx.job.Checkout? && tx.pc.LockingProducts?
    ensures KeepsOwn(db, tx, input)
  {
  }

  lemma PricedLinesFit(db: Db, tx: Tx, subtotal: int)
    requires TxInv(db, tx) && tx.job.Checkout? && tx.pc.PricesRead? && Fits(db, tx.pc.store, tx.pc.lines, tx.start)
    ensures TxInv(db, tx.(pc := Checked(tx.pc.fp, tx.pc.store, tx.pc.lines, subtotal)))
  {
  }

  lemma PricingProceeds(db: Db, tx: Tx)
    requires TxInv(db, tx) && tx.job.Checkout? && tx.pc.PricesRead?
    ensures KeepsOwn(db, tx, Proceed)
  {
    PricingNext(db, tx);
    if CheckedItems(db, tx).Ok? {
      AcceptedLinesFit(db, tx, tx.pc);
      PricedLinesFit(db, tx, CheckedItems(db, tx).value);
    }
  }

  lemma PricingKeepsTx(db: Db, tx: Tx, input: Input)
    requires TxInv(db, tx) && tx.job.Checkout? && tx.pc.PricesRead?
    ensures KeepsOwn(db, tx, input)
  {
    if input == Proceed {
      PricingProceeds(db, tx);
    }
  }

  lemma CommitKeepsTx(db: Db, tx: Tx, input: Input)
    requires DbInv(db) && TxInv(db, tx) && tx.job.Checkout? && tx.pc.Charged?
    ensures KeepsOwn(db, tx, input)
  {
  }

  lemma OwnStepKeepsTx(db: Db, tx: Tx, input: Input)
    requires DbInv(db) && TxInv(db, tx) && TxNext(db, tx, input).Some?
    ensures TxInv(TxNext(db, tx, input).value.0, TxNext(db, tx, input).value.1)
  {
    assert KeepsOwn(db, tx, input) by {
      if tx.job.Cancellation? {
        StepKeepsForm(db, tx, input);
      } else if tx.pc.Fingerprinted? || tx.pc.Violated? {
        LookupKeepsTx(db, tx, input);
      } else if tx.pc.PricesRead? {
        PricingKeepsTx(db, tx, input);
      } else if tx.pc.CartHeld? {
        CartRowsKeepTx(db, tx, input);
      } else if tx.pc.LockingProducts? {
        LockingKeepsTx(db, tx, input);
      } else if tx.pc.Charged? {
        CommitKeepsTx(db, tx, input);
      } else {
        EarlyStepKeepsTx(db, tx, input);
      }
    }
  }

  /******* The other transactions, and the whole system *******/

  lemma CommitKeepsOther(db: Db, mine: Tx, other: Tx)
    requires DbInv(db) && TxInv(db, mine) && TxInv(db, other)
    requires mine.job.Checkout? && mine.pc.Charged? && mine.job.req.cart in db.carts
    requires HeldBy(mine) !! HeldBy(other)
    ensures TxInv(CommitOrder(db, NewOrder(mine.job.req, mine.pc), mine.start), other)
  {
    var req := mine.job.req;
    var order := NewOrder(req, mine.pc);
    var after := CommitOrder(db, order, mine.start);
    assert KeyLock(req.customer, req.key) in HeldBy(mine) && CartLock(req.cart) in HeldBy(mine);
    if other.job.Checkout? {
      var req', pc := other.job.req, other.pc;
      if PastLookup(pc) {
        assert KeyLock(req'.customer, req'.key) in HeldBy(other);
      }
      if HasCart(pc) {
        assert CartLock(req'.cart) in HeldBy(other);
      }
      if pc == Finished(Conflict) {
        var i :| 0 <= i < |db.orders| && db.orders[i].customer == req'.customer && db.orders[i].key == req'.key;
        assert after.orders[i] == db.orders[i];
      }
      if pc.Checked? || pc.Charged? {
        forall i | 0 <= i < |pc.lines|
          ensures Reserved(after.reservations, pc.store, pc.lines[i].product, other.start) + pc.lines[i].quantity
               <= OnHand(after, pc.store, pc.lines[i].product)
        {
          var p := pc.lines[i].product;
          assert ProductLock(pc.store, p) in HeldBy(other);
          ReservedByCommit(db.reservations, |db.orders|, order.store, order.items, mine.start, pc.store, p, other.start);
          if order.store == pc.store {
            assert !Mentions(order.items, p) by {
              assert forall k :: 0 <= k < |order.items| ==> ProductLock(order.store, order.items[k].product) in HeldBy(mine);
            }
            QuantityOfAbsent(order.items, p);
          }
        }
      }
    }
  }

  lemma CancelKeepsOther(db: Db, order: nat, other: Tx)
    requires DbInv(db) && TxInv(db, other) && order < |db.orders|
    ensures TxInv(CancelOrder(db, order), other)
  {
    var after := CancelOrder(db, order);
    if other.job.Checkout? {
      var pc := other.pc;
      if PastLookup(pc) {
        assert NoOrderFor(after, other.job.req.customer, other.job.req.key);
      }
      if pc == Finished(Conflict) {
        var i :| 0 <= i < |db.orders| && db.orders[i].customer == other.job.req.customer && db.orders[i].key == other.job.req.key;
        assert after.orders[i].customer == other.job.req.customer && after.orders[i].key == other.job.req.key;
      }
      if pc.Checked? || pc.Charged? {
        forall i | 0 <= i < |pc.lines|
          ensures Reserved(after.reservations, pc.store, pc.lines[i].product, other.start) + pc.lines[i].quantity
               <= OnHand(after, pc.store, pc.lines[i].product)
        {
          var p := pc.lines[i].product;
          ReservedByCancel(db.reservations, order, db.orders[order].cart, pc.store, p, other.start);
          ReleasedShareNonNegative(db.reservations, order, db.orders[order].cart, pc.store, p, other.start);
        }
      }
    }
  }

  lemma AdvanceKeepsOther(sys: System, t: TxId, input: Input, u: TxId)
    requires SysInv(sys) && Next(sys, Advance(t, input)).Some? && u in sys.txs && u != t
    ensures
      var next := Next(sys, Advance(t, input)).value;
      TxInv(next.db, sys.txs[u]) && Legal(next) && HeldBy(sys.txs[u]) !! HeldBy(next.txs[t])
  {
    var db, tx, other := sys.db, sys.txs[t], sys.txs[u];
    NextKeepsLegal(sys, Advance(t, input));
    OnlyCommitsWrite(db, tx, input);
    var next := Next(sys, Advance(t, input)).value;
    assert HeldBy(other) !! HeldBy(tx);
    assert TxInv(db, tx) && TxInv(db, other);
    if next.db != db {
      if tx.job.Checkout? {
        CommitKeepsOther(db, tx, other);
      } else {
        CancelKeepsOther(db, tx.job.order, other);
      }
    }
    assert HeldBy(other) !! HeldBy(next.txs[t]) - HeldBy(tx);
  }

  lemma OutcomeOfStep(db: Db, tx: Tx, input: Input)
    requires WellFormed(tx) && TxNext(db, tx, input).Some?
    ensures
      var pc := TxNext(db, tx, input).value.1.pc;
      pc.Finished? && pc.outcome.Created? ==> pc.outcome.order == |db.orders| && tx.job.Checkout?
  {
  }

  lemma AdvanceKeepsCreatedOnce(sys: System, t: TxId, input: Input)
    requires SysInv(sys) && Next(sys, Advance(t, input)).Some?
    ensures CreatedOnce(Next(sys, Advance(t, input)).value)
  {
    var next := Next(sys, Advance(t, input)).value;
    OutcomeOfStep(sys.db, sys.txs[t], input);
    forall u, i: nat | u in sys.txs && u != t && Creator(sys.txs[u], i) ensures i < |sys.db.orders| {
      assert TxInv(sys.db, sys.txs[u]);
    }
  }

  lemma AdvanceKeepsInv(sys: System, t: TxId, input: Input)
    requires SysInv(sys) && Next(sys, Advance(t, input)).Some?
    ensures SysInv(Next(sys, Advance(t, input)).value)
  {
    var next := Next(sys, Advance(t, input)).value;
    NextKeepsLegal(sys, Advance(t, input));
    assert DbInv(next.db) by {
      OwnStepKeepsTables(sys.db, sys.txs[t], input);
    }
    assert TxInv(next.db, next.txs[t]) by {
      OwnStepKeepsTx(sys.db, sys.txs[t], input);
    }
    assert CreatedOnce(next) by {
      AdvanceKeepsCreatedOnce(sys, t, input);
    }
    forall u | u in sys.txs && u != t
      ensures TxInv(next.db, sys.txs[u]) && HeldBy(sys.txs[u]) !! HeldBy(next.txs[t])
    {
      AdvanceKeepsOther(sys, t, input, u);
    }
  }

  lemma AddStockKeepsInv(sys: System, store: StoreId, product: ProductId, hundredths: nat)
    requires SysInv(sys)
    ensures SysInv(Next(sys, AddStock(store, product, hundredths)).value)
  {
    var next := Next(sys, AddStock(store, product, hundredths)).value;
    WholeUnitsMonotone(OnHandHundredths(sys.db, store, product), OnHandHundredths(sys.db, store, product) + hundredths);
    assert forall s, p :: OnHand(next.db, s, p) >= OnHand(sys.db, s, p);
    forall t | t in next.txs ensures TxInv(next.db, next.txs[t]) {
      var tx := sys.txs[t];
      assert TxInv(sys.db, tx);
      if tx.pc.Checked? || tx.pc.Charged? {
        assert Fits(next.db, tx.pc.store, tx.pc.lines, tx.start);
      }
    }
  }

  lemma WaitKeepsInv(sys: System, ms: nat)
    requires SysInv(sys)
    ensures SysInv(Next(sys, Wait(ms)).value)
  {
    var next := Next(sys, Wait(ms)).value;
    forall t | t in next.txs ensures TxInv(next.db, next.txs[t]) {
      assert TxInv(sys.db, sys.txs[t]);
    }
  }

  lemma CartActionKeepsInv(sys: System, a: Action)
    requires SysInv(sys) && (a.OpenCart? || a.EditCart?) && Next(sys, a).Some?
    ensures SysInv(Next(sys, a).value)
  {
    var next := Next(sys, a).value;
    forall t | t in next.txs ensures TxInv(next.db, next.txs[t]) {
      assert TxInv(sys.db, sys.txs[t]);
    }
  }

  lemma StepKeepsInv(sys: System, a: Action)
    requires SysInv(sys) && Next(sys, a).Some?
    ensures SysInv(Next(sys, a).value)
  {
    match a {
      case Begin(t, job) =>
      case Advance(t, input) => AdvanceKeepsInv(sys, t, input);
      case AddStock(store, product, hundredths) => AddStockKeepsInv(sys, store, product, hundredths);
      case Wait(ms) => WaitKeepsInv(sys, ms);
      case OpenCart(_, _, _) => CartActionKeepsInv(sys, a);
      case EditCart(_, _) => CartActionKeepsInv(sys, a);
    }
  }

  lemma {:induction false} RunKeepsInv(sys: System, actions: seq<Action>)
    requires SysInv(sys) && Run(sys, actions).Some?
    ensures SysInv(Run(sys, actions).value)
    decreases |actions|
  {
    if actions != [] {
      StepKeepsInv(sys, actions[0]);
      RunKeepsInv(Next(sys, actions[0]).value, actions[1..]);
    }
  }

  /******* Overselling, and the rows that checkouts read *******/

  // Counted reservations do not exceed the stock figure that checkout reads.
  ghost predicate NoOversell(db: Db) {
    forall s: StoreId, p: ProductId :: Reserved(db.reservations, s, p, db.now) <= Max(0, OnHand(db, s, p))
  }

  // Nothing is oversold, and no transaction in flight is about to.
  ghost predicate Guarded(sys: System) {
    NoOversell(sys.db) && forall t :: t in sys.txs && HasLines(sys.txs[t].pc) ==> Harmless(sys.txs[t].pc.lines)
  }

  // The rows of its held cart that a checkout reads with this action, if it does.
  function RowsRead(sys: System, a: Action): Option<seq<Line>> {
    if a.Advance? && a.input == Proceed && a.t in sys.txs && sys.txs[a.t].job.Checkout? && sys.txs[a.t].pc.CartHeld?
    then Some(HeldRows(sys.db, sys.txs[a.t].job.req))
    else None
  }

  // Whenever a checkout of the run reads its held cart, it finds rows of this kind.
  predicate ReadsOnly(sys: System, actions: seq<Action>, allowed: seq<Line> -> bool)
    requires Legal(sys) && Run(sys, actions).Some?
    decreases |actions|
  {
    if actions == [] then true
    else
      NextKeepsLegal(sys, actions[0]);
      (RowsRead(sys, actions[0]).Some? ==> allowed(RowsRead(sys, actions[0]).value))
      && ReadsOnly(Next(sys, actions[0]).value, actions[1..], allowed)
  }

  lemma HeldRowsSorted(db: Db, req: Request)
    ensures Sorted(HeldRows(db, req))
  {
    if req.cart in db.carts {
      SortByProductSorts(db.carts[req.cart].items);
    }
  }

  lemma CommitKeepsStock(db: Db, tx: Tx)
    requires NoOversell(db) && PositiveReservations(db) && TxInv(db, tx) && tx.job.Checkout? && tx.pc.Charged?
    requires Harmless(tx.pc.lines)
    ensures NoOversell(CommitOrder(db, NewOrder(tx.job.req, tx.pc), tx.start))
  {
    var order := NewOrder(tx.job.req, tx.pc);
    var after := CommitOrder(db, order, tx.start);
    var lines := order.items;
    forall s: StoreId, p: ProductId
      ensures Reserved(after.reservations, s, p, after.now) <= Max(0, OnHand(after, s, p))
    {
      ReservedByCommit(db.reservations, |db.orders|, order.store, lines, tx.start, s, p, db.now);
      if s == order.store && Mentions(lines, p) {
        var i :| 0 <= i < |lines| && lines[i].product == p;
        QuantityOfDistinct(lines, i);
        ReservedShrinksWithTime(db.reservations, s, p, tx.start, db.now);
      } else if s == order.store {
        QuantityOfAbsent(lines, p);
      }
    }
  }

  lemma CancelKeepsStock(db: Db, order: nat)
    requires NoOversell(db) && PositiveReservations(db) && order < |db.orders|
    ensures NoOversell(CancelOrder(db, order))
  {
    var cart := db.orders[order].cart;
    forall s: StoreId, p: ProductId
      ensures Reserved(Release(db.reservations, order, cart), s, p, db.now) <= Max(0, OnHand(db, s, p))
    {
      ReservedByCancel(db.reservations, order, cart, s, p, db.now);
      ReleasedShareNonNegative(db.reservations, order, cart, s, p, db.now);
    }
  }

  // Lines come from the read of the held cart, and stay what they were then.
  lemma LinesComeFromRead(db: Db, tx: Tx, input: Input)
    requires WellFormed(tx) && TxNext(db, tx, input).Some?
    ensures
      var pc := TxNext(db, tx, input).value.1.pc;
      HasLines(pc) ==>
        tx.job.Checkout?
        && ((HasLines(tx.pc) && pc.lines == tx.pc.lines)
            || (tx.pc.CartHeld? && input == Proceed && pc.lines == HeldRows(db, tx.job.req)))
  {
  }

  lemma AdvanceKeepsGuard(sys: System, t: TxId, input: Input)
    requires SysInv(sys) && Guarded(sys) && Next(sys, Advance(t, input)).Some?
    requires RowsRead(sys, Advance(t, input)).Some? ==> Harmless(RowsRead(sys, Advance(t, input)).value)
    ensures Guarded(Next(sys, Advance(t, input)).value)
  {
    var next := Next(sys, Advance(t, input)).value;
    var tx := sys.txs[t];
    OnlyCommitsWrite(sys.db, tx, input);
    assert NoOversell(next.db) by {
      if next.db != sys.db {
        assert TxInv(sys.db, tx);
        if tx.job.Checkout? {
          CommitKeepsStock(sys.db, tx);
        } else {
          CancelKeepsStock(sys.db, tx.job.order);
        }
      }
    }
    LinesComeFromRead(sys.db, tx, input);
    forall u | u in next.txs && HasLines(next.txs[u].pc) ensures Harmless(next.txs[u].pc.lines) {
      if u != t {
        assert next.txs[u] == sys.txs[u];
      }
    }
  }

  lemma OtherKeepsStock(sys: System, a: Action)
    requires SysInv(sys) && NoOversell(sys.db) && Next(sys, a).Some? && !a.Advance?
    ensures NoOversell(Next(sys, a).value.db)
  {
    var db, db' := sys.db, Next(sys, a).value.db;
    forall s: StoreId, p: ProductId ensures Reserved(db'.reservations, s, p, db'.now) <= Max(0, OnHand(db', s, p)) {
      ReservedShrinksWithTime(db.reservations, s, p, db.now, db'.now);
      WholeUnitsMonotone(OnHandHundredths(db, s, p), OnHandHundredths(db', s, p));
    }
  }

  lemma StepKeepsGuard(sys: System, a: Action)
    requires SysInv(sys) && Guarded(sys) && Next(sys, a).Some?
    requires RowsRead(sys, a).Some? ==> Harmless(RowsRead(sys, a).value)
    ensures Guarded(Next(sys, a).value)
  {
    if a.Advance? {
      AdvanceKeepsGuard(sys, a.t, a.input);
    } else {
      OtherKeepsStock(sys, a);
    }
  }

  // What may be found in a held cart decides: if only harmless rows are, nothing is oversold.
  lemma {:induction false} RunKeepsGuard(sys: System, actions: seq<Action>, allowed: seq<Line> -> bool)
    requires SysInv(sys) && Guarded(sys) && Run(sys, actions).Some? && ReadsOnly(sys, actions, allowed)
    requires forall lines :: Sorted(lines) && allowed(lines) ==> Harmless(lines)
    ensures Guarded(Run(sys, actions).value)
    decreases |actions|
  {
    if actions != [] {
      if RowsRead(sys, actions[0]).Some? {
        HeldRowsSorted(sys.db, sys.txs[actions[0].t].job.req);
      }
      StepKeepsInv(sys, actions[0]);
      StepKeepsGuard(sys, actions[0]);
      RunKeepsGuard(Next(sys, actions[0]).value, actions[1..], allowed);
    }
  }

  /******* The guarantees over whole runs *******/

  // In every interleaving in which no checkout reads a repeated product from its held cart, the
  // counted reservations stay within the stock figure that checkout reads, so they exceed the
  // exact stock by half a unit at most, and not at all where the stock's fraction of a unit is
  // below one half.
  lemma NeverOversold(sys: System, actions: seq<Action>, s: StoreId, p: ProductId)
    requires SysInv(sys) && Guarded(sys) && Run(sys, actions).Some? && ReadsOnly(sys, actions, Harmless)
    ensures
      var db := Run(sys, actions).value.db;
      Reserved(db.reservations, s, p, db.now) <= Max(0, OnHand(db, s, p))
      && WithinStock(OnHandHundredths(db, s, p), Reserved(db.reservations, s, p, db.now))
  {
    RunKeepsGuard(sys, actions, Harmless);
    var db := Run(sys, actions).value.db;
    WholeUnitsBoundStock(OnHandHundredths(db, s, p), Reserved(db.reservations, s, p, db.now));
  }

  // In every interleaving there is one order at most per customer and key, and per cart, and two
  // checkouts that both created an order differ in both.
  lemma OrdersAreUnique(sys: System, actions: seq<Action>)
    requires SysInv(sys) && Run(sys, actions).Some?
    ensures
      var after := Run(sys, actions).value;
      OneOrderPerKey(after.db) && OneOrderPerCart(after.db)
      && forall t, u, i: nat, j: nat | t in after.txs && u in after.txs && t != u
           && after.txs[t].job.Checkout? && after.txs[u].job.Checkout?
           && Creator(after.txs[t], i) && Creator(after.txs[u], j) ::
             (after.txs[t].job.req.customer != after.txs[u].job.req.customer
              || after.txs[t].job.req.key != after.txs[u].job.req.key)
             && after.txs[t].job.req.cart != after.txs[u].job.req.cart
  {
    RunKeepsInv(sys, actions);
    var after := Run(sys, actions).value;
    forall t, u, i: nat, j: nat | t in after.txs && u in after.txs && t != u
           && after.txs[t].job.Checkout? && after.txs[u].job.Checkout?
           && Creator(after.txs[t], i) && Creator(after.txs[u], j)
      ensures (after.txs[t].job.req.customer != after.txs[u].job.req.customer
              || after.txs[t].job.req.key != after.txs[u].job.req.key)
      ensures after.txs[t].job.req.cart != after.txs[u].job.req.cart
    {
      assert TxInv(after.db, after.txs[t]) && TxInv(after.db, after.txs[u]);
      assert i != j;
      assert i < j || j < i;
    }
  }

  lemma OrderPersists(sys: System, a: Action, i: nat)
    requires SysInv(sys) && Next(sys, a).Some? && i < |sys.db.orders|
    ensures
      var orders := Next(sys, a).value.db.orders;
      i < |orders| && orders[i] == sys.db.orders[i].(status := orders[i].status)
  {
    if a.Advance? {
      OnlyCommitsWrite(sys.db, sys.txs[a.t], a.input);
    }
  }

  // An order row never changes apart from its status, and is never removed.
  lemma {:induction false} OrdersPersist(sys: System, actions: seq<Action>, i: nat)
    requires SysInv(sys) && Run(sys, actions).Some? && i < |sys.db.orders|
    ensures
      var orders := Run(sys, actions).value.db.orders;
      i < |orders| && orders[i] == sys.db.orders[i].(status := orders[i].status)
    decreases |actions|
  {
    if actions != [] {
      OrderPersists(sys, actions[0], i);
      StepKeepsInv(sys, actions[0]);
      OrdersPersist(Next(sys, actions[0]).value, actions[1..], i);
    }
  }

  /******* Retries *******/

  lemma StoredIs(db: Db, req: Request, fp: Fingerprint, i: nat)
    requires OneOrderPerKey(db) && i < |db.orders|
    requires db.orders[i].customer == req.customer && db.orders[i].key == req.key
    ensures Stored(db, req, fp) == Some(Verdict(db.orders[i], i, fp))
  {
    var j := FindOrder(db.orders, req.customer, req.key).value;
    assert i < j || j < i || i == j;
  }

  // What a request with this fingerprint is told about the stored order.
  function Verdict(order: Order, i: nat, fp: Fingerprint): Outcome {
    if order.fingerprint == fp then Replayed(i) else Conflict
  }

  // A checkout under the customer and key of order i.
  predicate UnderKey(db: Db, job: Job, i: nat) {
    i < |db.orders| && job.Checkout? && job.req.customer == db.orders[i].customer && job.req.key == db.orders[i].key
  }

  // Not yet decided, or told about order i, or failed.
  predicate OnlyReplays(pc: Pc, i: nat) {
    pc.Begun? || pc.KeyHeld? || pc.Fingerprinted? || pc.Violated?
    || pc == Finished(Replayed(i)) || pc == Finished(Conflict) || pc == Finished(Aborted)
  }

  ghost predicate Retrying(sys: System, t: TxId, i: nat) {
    SysInv(sys) && t in sys.txs && UnderKey(sys.db, sys.txs[t].job, i) && OnlyReplays(sys.txs[t].pc, i)
  }

  // An unfinished transaction under a key that has an order can only be a retry.
  lemma UnfinishedIsRetry(sys: System, t: TxId, i: nat)
    requires SysInv(sys) && t in sys.txs && UnderKey(sys.db, sys.txs[t].job, i) && !sys.txs[t].pc.Finished?
    ensures Retrying(sys, t, i)
  {
    assert TxInv(sys.db, sys.txs[t]);
  }

  // One statement of a retry: its next place, and the tables as they were.
  lemma RetryStep(db: Db, tx: Tx, input: Input, i: nat)
    requires OneOrderPerKey(db) && UnderKey(db, tx.job, i) && OnlyReplays(tx.pc, i) && TxNext(db, tx, input).Some?
    ensures
      var (db', tx') := TxNext(db, tx, input).value;
      db' == db && tx'.job == tx.job && OnlyReplays(tx'.pc, i)
      && match tx.pc
         case KeyHeld =>
           tx'.pc == Finished(Aborted) || tx'.pc == Fingerprinted(FingerprintOf(tx.job.req, CartRows(db, tx.job.req)))
         case Fingerprinted(fp) => tx'.pc == Finished(Aborted) || tx'.pc == Finished(Verdict(db.orders[i], i, fp))
         case Violated(fp) => tx'.pc == Finished(Aborted) || tx'.pc == Finished(Verdict(db.orders[i], i, fp))
         case _ => tx'.pc == Finished(Aborted) || tx'.pc == KeyHeld
  {
    match tx.pc
    case Fingerprinted(fp) => StoredIs(db, tx.job.req, fp, i);
    case Violated(fp) => StoredIs(db, tx.job.req, fp, i);
    case _ =>
  }

  // Whatever another action does, a retry stays where it is and its order stays the same.
  lemma RetryStays(sys: System, a: Action, t: TxId, i: nat)
    requires Retrying(sys, t, i) && Next(sys, a).Some? && !(a.Advance? && a.t == t)
    ensures
      var next := Next(sys, a).value;
      Retrying(next, t, i) && next.txs[t] == sys.txs[t]
      && next.db.orders[i] == sys.db.orders[i].(status := next.db.orders[i].status)
  {
    StepKeepsInv(sys, a);
    if a.Advance? {
      OnlyCommitsWrite(sys.db, sys.txs[a.t], a.input);
    }
  }

  lemma RetryAdvances(sys: System, input: Input, t: TxId, i: nat)
    requires Retrying(sys, t, i) && Next(sys, Advance(t, input)).Some?
    ensures
      var next := Next(sys, Advance(t, input)).value;
      Retrying(next, t, i) && next.db == sys.db && next.txs[t] == TxNext(sys.db, sys.txs[t], input).value.1
  {
    StepKeepsInv(sys, Advance(t, input));
    RetryStep(sys.db, sys.txs[t], input, i);
  }

  // In every run a retry stays one.
  lemma {:induction false} RetryRun(sys: System, actions: seq<Action>, t: TxId, i: nat)
    requires Retrying(sys, t, i) && Run(sys, actions).Some?
    ensures Retrying(Run(sys, actions).value, t, i) && Run(sys, actions).value.txs[t].job == sys.txs[t].job
    ensures
      var order := Run(sys, actions).value.db.orders[i];
      order == sys.db.orders[i].(status := order.status)
    decreases |actions|
  {
    if actions != [] {
      if actions[0].Advance? && actions[0].t == t {
        RetryAdvances(sys, actions[0].input, t, i);
        RetryStep(sys.db, sys.txs[t], actions[0].input, i);
      } else {
        RetryStays(sys, actions[0], t, i);
      }
      RetryRun(Next(sys, actions[0]).value, actions[1..], t, i);
    }
  }

  // Once a customer's key has an order, every transaction under that key that is unfinished then
  // or begins later, in every run, can only be told about that order or fail: it never creates
  // another, and it is never refused.
  lemma {:induction false} RetriesNeverCreate(sys: System, actions: seq<Action>, t: TxId, i: nat)
    requires SysInv(sys) && Run(sys, actions).Some? && (t in sys.txs ==> !sys.txs[t].pc.Finished?)
    requires t in Run(sys, actions).value.txs && i < |sys.db.orders|
    requires UnderKey(sys.db, Run(sys, actions).value.txs[t].job, i)
    ensures Retrying(Run(sys, actions).value, t, i)
    decreases |actions|
  {
    if t in sys.txs {
      OnlyPlacesChange(sys, actions, t);
      UnfinishedIsRetry(sys, t, i);
      RetryRun(sys, actions, t, i);
    } else {
      OrderPersists(sys, actions[0], i);
      StepKeepsInv(sys, actions[0]);
      RetriesNeverCreate(Next(sys, actions[0]).value, actions[1..], t, i);
    }
  }

  lemma {:induction false} OnlyPlacesChange(sys: System, actions: seq<Action>, t: TxId)
    requires Legal(sys) && Run(sys, actions).Some? && t in sys.txs
    ensures
      var txs := Run(sys, actions).value.txs;
      t in txs && txs[t] == sys.txs[t].(pc := txs[t].pc)
    decreases |actions|
  {
    if actions != [] {
      NextKeepsLegal(sys, actions[0]);
      if actions[0].Advance? && actions[0].t == t {
        StepKeepsJob(sys.db, sys.txs[t], actions[0].input);
      }
      OnlyPlacesChange(Next(sys, actions[0]).value, actions[1..], t);
    }
  }

  // No statement of a retry changes the tables, in any reachable state.
  lemma RetriesLeaveTables(sys: System, actions: seq<Action>, t: TxId, input: Input, i: nat)
    requires SysInv(sys) && Run(sys, actions).Some? && i < |sys.db.orders|
    requires t in sys.txs ==> !sys.txs[t].pc.Finished?
    requires
      var now := Run(sys, actions).value;
      t in now.txs && UnderKey(sys.db, now.txs[t].job, i) && Legal(now) && Next(now, Advance(t, input)).Some?
    ensures
      var now := Run(sys, actions).value;
      Next(now, Advance(t, input)).value.db == now.db
  {
    RetriesNeverCreate(sys, actions, t, i);
    RetryAdvances(Run(sys, actions).value, input, t, i);
  }

  // From its fingerprint on a retry is decided, whatever else happens: it ends with the stored
  // order if the fingerprints agree, and with a conflict if they do not, unless it fails.
  lemma {:induction false} FingerprintDecides(sys: System, actions: seq<Action>, t: TxId, i: nat)
    requires Retrying(sys, t, i) && Run(sys, actions).Some?
    requires sys.txs[t].pc.Fingerprinted? || sys.txs[t].pc.Violated?
    ensures t in Run(sys, actions).value.txs
    ensures
      var pc := Run(sys, actions).value.txs[t].pc;
      pc == sys.txs[t].pc || pc == Finished(Aborted) || pc == Finished(Verdict(sys.db.orders[i], i, sys.txs[t].pc.fp))
    decreases |actions|
  {
    if actions != [] {
      var next := Next(sys, actions[0]).value;
      if actions[0].Advance? && actions[0].t == t {
        RetryAdvances(sys, actions[0].input, t, i);
        RetryStep(sys.db, sys.txs[t], actions[0].input, i);
        FinishedStays(next, actions[1..], t);
      } else {
        RetryStays(sys, actions[0], t, i);
        FingerprintDecides(next, actions[1..], t, i);
      }
    }
  }

  lemma {:induction false} FinishedStays(sys: System, actions: seq<Action>, t: TxId)
    requires Legal(sys) && Run(sys, actions).Some? && t in sys.txs && sys.txs[t].pc.Finished?
    ensures t in Run(sys, actions).value.txs && Run(sys, actions).value.txs[t] == sys.txs[t]
    decreases |actions|
  {
    if actions != [] {
      NextKeepsLegal(sys, actions[0]);
      FinishedStays(Next(sys, actions[0]).value, actions[1..], t);
    }
  }

  // In the one state a checkout was about to read its cart, in the other it has ended: with order
  // i if its fingerprint over the rows it read is the stored one, with a conflict if it is not.
  predicate DecidedBy(reading: System, after: System, t: TxId, stored: Fingerprint, i: nat) {
    t in reading.txs && t in after.txs && reading.txs[t] == after.txs[t].(pc := KeyHeld) && after.txs[t].job.Checkout?
    && var req := after.txs[t].job.req;
    after.txs[t].pc
    == Finished(if stored == FingerprintOf(req, CartRows(reading.db, req)) then Replayed(i) else Conflict)
  }

  // A retry that begins after its order exists and ends without failing, in any run, was decided
  // by the rows of its cart at the one moment k at which it read them: it returns the stored
  // order if its fingerprint over those rows is the stored one, and a conflict if it is not.
  lemma {:induction false} RetryReturnsStoredOrder(sys: System, actions: seq<Action>, t: TxId, i: nat) returns (k: nat)
    requires SysInv(sys) && Run(sys, actions).Some? && i < |sys.db.orders|
    requires t in sys.txs ==> sys.txs[t].pc.Begun? || sys.txs[t].pc.KeyHeld?
    requires EndsDecided(sys, actions, t, i)
    ensures k < |actions| && actions[k] == Advance(t, Proceed) && Run(sys, actions[..k]).Some?
    ensures DecidedBy(Run(sys, actions[..k]).value, Run(sys, actions).value, t, sys.db.orders[i].fingerprint, i)
    decreases |actions|
  {
    if ReadsNow(sys, actions[0], t) {
      FirstReadDecides(sys, actions, t, i);
      k := 0;
    } else {
      StillToRead(sys, actions, t, i);
      k := RetryReturnsStoredOrder(Next(sys, actions[0]).value, actions[1..], t, i);
      assert actions[..k + 1][1..] == actions[1..][..k];
      k := k + 1;
    }
  }

  // The action by which a checkout reads the cart rows of its fingerprint.
  predicate ReadsNow(sys: System, a: Action, t: TxId) {
    a == Advance(t, Proceed) && t in sys.txs && sys.txs[t].pc.KeyHeld?
  }

  // A retry that is about to end, or has ended, other than by failing.
  ghost predicate EndsDecided(sys: System, actions: seq<Action>, t: TxId, i: nat)
    requires Legal(sys) && Run(sys, actions).Some?
  {
    var after := Run(sys, actions).value;
    t in after.txs && UnderKey(sys.db, after.txs[t].job, i)
    && after.txs[t].pc.Finished? && after.txs[t].pc.outcome != Aborted
  }

  lemma FirstReadDecides(sys: System, actions: seq<Action>, t: TxId, i: nat)
    requires SysInv(sys) && actions != [] && Run(sys, actions).Some? && ReadsNow(sys, actions[0], t)
    requires EndsDecided(sys, actions, t, i)
    ensures Run(sys, actions[..0]) == Some(sys)
    ensures DecidedBy(sys, Run(sys, actions).value, t, sys.db.orders[i].fingerprint, i)
  {
    OnlyPlacesChange(sys, actions, t);
    ReadingDecides(sys, actions[1..], t, i);
  }

  // Any other action leaves a state from which the same is to be shown.
  lemma StillToRead(sys: System, actions: seq<Action>, t: TxId, i: nat)
    requires SysInv(sys) && actions != [] && Run(sys, actions).Some? && i < |sys.db.orders|
    requires t in sys.txs ==> sys.txs[t].pc.Begun? || sys.txs[t].pc.KeyHeld?
    requires EndsDecided(sys, actions, t, i) && !ReadsNow(sys, actions[0], t)
    ensures
      var next := Next(sys, actions[0]).value;
      SysInv(next) && EndsDecided(next, actions[1..], t, i)
      && (t in next.txs ==> next.txs[t].pc.Begun? || next.txs[t].pc.KeyHeld?)
      && next.db.orders[i].fingerprint == sys.db.orders[i].fingerprint
  {
    OrderStaysFindable(sys, actions[0], i);
    if t in sys.txs {
      OnlyPlacesChange(sys, actions, t);
      ReadsLater(sys, actions[0], actions[1..], t, i);
    }
  }

  lemma OrderStaysFindable(sys: System, a: Action, i: nat)
    requires SysInv(sys) && Next(sys, a).Some? && i < |sys.db.orders|
    ensures
      var next := Next(sys, a).value;
      SysInv(next) && i < |next.db.orders| && next.db.orders[i].fingerprint == sys.db.orders[i].fingerprint
      && forall job :: UnderKey(next.db, job, i) <==> UnderKey(sys.db, job, i)
  {
    StepKeepsInv(sys, a);
    OrderPersists(sys, a, i);
  }

  // The statement that reads the cart.
  lemma ReadingDecides(sys: System, rest: seq<Action>, t: TxId, i: nat)
    requires SysInv(sys) && t in sys.txs && sys.txs[t].pc.KeyHeld? && Next(sys, Advance(t, Proceed)).Some?
    requires Legal(Next(sys, Advance(t, Proceed)).value) && Run(Next(sys, Advance(t, Proceed)).value, rest).Some?
    requires UnderKey(sys.db, sys.txs[t].job, i)
    ensures
      var after := Run(Next(sys, Advance(t, Proceed)).value, rest).value;
      t in after.txs
      && (after.txs[t].pc.Finished? && after.txs[t].pc.outcome != Aborted ==>
            DecidedBy(sys, after, t, sys.db.orders[i].fingerprint, i))
  {
    UnfinishedIsRetry(sys, t, i);
    RetryAdvances(sys, Proceed, t, i);
    RetryStep(sys.db, sys.txs[t], Proceed, i);
    StepKeepsJob(sys.db, sys.txs[t], Proceed);
    FingerprintDecides(Next(sys, Advance(t, Proceed)).value, rest, t, i);
    OnlyPlacesChange(Next(sys, Advance(t, Proceed)).value, rest, t);
  }

  // Any other action before it leaves the retry still to read the cart, or failed.
  lemma ReadsLater(sys: System, a: Action, rest: seq<Action>, t: TxId, i: nat)
    requires SysInv(sys) && t in sys.txs && (sys.txs[t].pc.Begun? || sys.txs[t].pc.KeyHeld?)
    requires Next(sys, a).Some? && Legal(Next(sys, a).value) && Run(Next(sys, a).value, rest).Some?
    requires UnderKey(sys.db, sys.txs[t].job, i)
    requires !(a == Advance(t, Proceed) && sys.txs[t].pc.KeyHeld?)
    requires
      var after := Run(Next(sys, a).value, rest).value;
      t in after.txs && after.txs[t].pc.Finished? && after.txs[t].pc.outcome != Aborted
    ensures
      var next := Next(sys, a).value;
      t in next.txs && (next.txs[t].pc.Begun? || next.txs[t].pc.KeyHeld?)
  {
    if a.Advance? && a.t == t && Next(sys, a).value.txs[t].pc.Finished? {
      FinishedStays(Next(sys, a).value, rest, t);
    }
  }
}
