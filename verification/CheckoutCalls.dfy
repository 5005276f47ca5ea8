// The checkout service itself, statement by statement over its tables, and the proof that a call
// is one run of the protocol: what holds for every interleaving holds for the service's calls.
module CheckoutCalls {
  import opened Basics
  import opened Identifiers
  import opened CartValidation
  import opened CheckoutPricing
  import opened ShopDb
  import opened CheckoutProtocol

  // What the other services and tables answer during one call.
  datatype World = World(
    country: string,
    address: (AddressId, CustomerId) -> Option<Address>,
    hasStreet: AddressId -> bool,
    wardInMunicipality: (int, int) -> bool,
    divisionKnown: (int, int) -> bool,
    resolveStore: (int, int) -> Option<StoreId>,
    defaultStore: Option<StoreId>,
    acceptsOrders: StoreId -> bool,
    products: StoreId -> map<ProductId, ProductRow>,
    deliveryFee: (int, int, StoreId, real) -> Option<real>,
    orderNumberTaken: bool)

  function SavedAddress(req: Request, w: World): Result<(int, int), Refusal> {
    if req.address.None? then Err(AddressRequired)
    else
      match w.address(req.address.value, req.customer)
      case None => Err(AddressIncomplete)
      case Some(a) =>
        if !Present(a.municipality) || !Present(a.ward) then Err(AddressIncomplete)
        else if !w.wardInMunicipality(a.ward.value, a.municipality.value) then Err(WardMismatch)
        else Ok((a.municipality.value, a.ward.value))
  }

  // The store an order goes to. The store named in the request plays no part.
  function FulfillmentStore(req: Request, w: World): Result<StoreId, Refusal> {
    var chosen :=
      if req.deliveryType == Delivery then
        (match SavedAddress(req, w)
         case Err(e) => Err(e)
         case Ok(place) =>
           match w.resolveStore(place.0, place.1)
           case None => Err(OutsideDeliveryAreas)
           case Some(store) => Ok(store))
      else if w.defaultStore.None? then Err(NoOpenStore)
      else Ok(w.defaultStore.value);
    if chosen.Ok? && !w.acceptsOrders(chosen.value) then Err(StoreClosed) else chosen
  }

  function Shipping(req: Request, w: World, store: StoreId, subtotalPaisa: int): Result<real, Refusal> {
    if req.deliveryType == Pickup then Ok(0.0)
    else
      match SavedAddress(req, w)
      case Err(e) => Err(NepalAddressRequired)
      case Ok((m, ward)) =>
        if req.country != Some(w.country) then Err(NepalAddressRequired)
        else if !w.divisionKnown(m, ward) then Err(WardMismatch)
        else
          match w.deliveryFee(m, ward, store, subtotalPaisa as real / 100.0)
          case None => Err(NotServiceable)
          case Some(fee) =>
            if !w.hasStreet(req.address.value) && TextOrNull(req.shippingAddress).None? then Err(NoStreet) else Ok(fee)
  }

  // The world's answer at each step of a transaction.
  function Answer(tx: Tx, w: World): Input {
    match tx.job
    case Cancellation(_, _) => Proceed
    case Checkout(req) =>
      match tx.pc
      case NewRequest(_) => Assign(FulfillmentStore(req, w))
      case LockingProducts(_, store, lines, held) => if held < |lines| then Proceed else Catalogue(w.products(store))
      case Checked(_, store, _, subtotal) => Quote(Shipping(req, w, store, subtotal))
      case Charged(_, _, _, _, _) => if w.orderNumberTaken then UniqueViolation else Proceed
      case _ => Proceed
  }

  // The cart of a transaction that holds it exists.
  predicate CartPresent(db: Db, tx: Tx) {
    WellFormed(tx) && (tx.job.Checkout? && HasCart(tx.pc) ==> tx.job.req.cart in db.carts)
  }

  lemma AnswerIsTaken(db: Db, tx: Tx, w: World)
    requires CartPresent(db, tx) && !tx.pc.Finished?
    ensures TxNext(db, tx, Answer(tx, w)).Some?
  {
  }

  lemma StepKeepsCart(db: Db, tx: Tx, input: Input)
    requires CartPresent(db, tx) && TxNext(db, tx, input).Some?
    ensures CartPresent(TxNext(db, tx, input).value.0, TxNext(db, tx, input).value.1)
  {
    StepKeepsForm(db, tx, input);
  }

  lemma AnswerIsAccepted(db: Db, tx: Tx, w: World)
    requires CartPresent(db, tx) && !tx.pc.Finished?
    ensures
      var next := TxNext(db, tx, Answer(tx, w));
      next.Some? && CartPresent(next.value.0, next.value.1)
      && Budget(next.value.0, next.value.1) < Budget(db, tx)
  {
    AnswerIsTaken(db, tx, w);
    StepSpends(db, tx, Answer(tx, w));
    StepKeepsCart(db, tx, Answer(tx, w));
  }

  // The tables and the outcome after a transaction runs to its end with nothing in between.
  function RunAlone(db: Db, tx: Tx, w: World): (Db, Outcome)
    requires CartPresent(db, tx)
    decreases Budget(db, tx)
  {
    if tx.pc.Finished? then (db, tx.pc.outcome)
    else
      AnswerIsAccepted(db, tx, w);
      var (db', tx') := TxNext(db, tx, Answer(tx, w)).value;
      RunAlone(db', tx', w)
  }

  function Started(db: Db, job: Job): Tx {
    Tx(job, db.now, Begun)
  }

  // The statements that RunAlone takes, as actions of the system.
  function Script(db: Db, tx: Tx, w: World): seq<Action>
    requires CartPresent(db, tx)
    decreases Budget(db, tx)
  {
    if tx.pc.Finished? then []
    else
      AnswerIsAccepted(db, tx, w);
      var (db', tx') := TxNext(db, tx, Answer(tx, w)).value;
      [Advance(0, Answer(tx, w))] + Script(db', tx', w)
  }

  lemma LoneStep(db: Db, tx: Tx, input: Input, db': Db, tx': Tx)
    requires WellFormed(tx) && TxNext(db, tx, input) == Some((db', tx'))
    ensures Next(System(db, map[0 := tx]), Advance(0, input)) == Some(System(db', map[0 := tx']))
  {
    StepKeepsForm(db, tx, input);
    assert map[0 := tx][0 := tx'] == map[0 := tx'];
  }

  lemma {:induction false} ScriptRuns(db: Db, tx: Tx, w: World)
    requires CartPresent(db, tx)
    ensures Run(System(db, map[0 := tx]), Script(db, tx, w))
         == Some(System(RunAlone(db, tx, w).0, map[0 := tx.(pc := Finished(RunAlone(db, tx, w).1))]))
    decreases Budget(db, tx)
  {
    if !tx.pc.Finished? {
      var input := Answer(tx, w);
      AnswerIsAccepted(db, tx, w);
      var (db', tx') := TxNext(db, tx, input).value;
      LoneStep(db, tx, input, db', tx');
      StepKeepsJob(db, tx, input);
      ScriptRuns(db', tx', w);
      RunStep(System(db, map[0 := tx]), Advance(0, input), System(db', map[0 := tx']), Script(db', tx', w));
    }
  }

  // A call running by itself is a run of the concurrent system.
  lemma CallIsARun(db: Db, job: Job, w: World)
    ensures
      var tx := Started(db, job);
      var actions := [Begin(0, job)] + Script(db, tx, w);
      Run(System(db, map[]), actions)
      == Some(System(RunAlone(db, tx, w).0, map[0 := tx.(pc := Finished(RunAlone(db, tx, w).1))]))
  {
    var tx := Started(db, job);
    ScriptRuns(db, tx, w);
    var begun := System(db, map[0 := tx]);
    assert Next(System(db, map[]), Begin(0, job)) == Some(begun);
    assert ([Begin(0, job)] + Script(db, tx, w))[1..] == Script(db, tx, w);
  }

  // One statement of a transaction that runs alone.
  lemma AloneStep(db: Db, tx: Tx, db': Db, tx': Tx, w: World)
    requires CartPresent(db, tx) && !tx.pc.Finished? && TxNext(db, tx, Answer(tx, w)) == Some((db', tx'))
    ensures CartPresent(db', tx') && RunAlone(db, tx, w) == RunAlone(db', tx', w)
    ensures tx'.pc.Finished? ==> RunAlone(db, tx, w) == (db', tx'.pc.outcome)
  {
    AnswerIsAccepted(db, tx, w);
  }

  // SELECT pg_advisory_xact_lock(..) FROM unnest(..) ORDER BY product_id
  lemma {:induction false} AloneTakesProductLocks(
    db: Db, tx: Tx, fp: Fingerprint, store: StoreId, lines: seq<Line>, held: nat, w: World)
    requires tx.job.Checkout? && tx.pc == LockingProducts(fp, store, lines, held) && held <= |lines|
    requires CartPresent(db, tx)
    ensures
      var read := tx.(pc := PricesRead(fp, store, lines, w.products(store)));
      CartPresent(db, read) && RunAlone(db, tx, w) == RunAlone(db, read, w)
    decreases |lines| - held
  {
    if held < |lines| {
      var next := tx.(pc := LockingProducts(fp, store, lines, held + 1));
      AloneStep(db, tx, db, next, w);
      AloneTakesProductLocks(db, next, fp, store, lines, held + 1, w);
    } else {
      AloneStep(db, tx, db, tx.(pc := PricesRead(fp, store, lines, w.products(store))), w);
    }
  }

  function PricedLines(db: Db, tx: Tx, lines: seq<Line>, store: StoreId, w: World): Result<int, ItemError>
    requires lines != []
  {
    ItemCheck(CheckoutLines(lines, StoreView(w.products(store), StockRows(db, store, lines, tx.start))))
  }

  // Locks, prices and the item check of the lines of a held cart.
  lemma AlonePrices(db: Db, tx: Tx, fp: Fingerprint, store: StoreId, lines: seq<Line>, w: World)
    requires tx.job.Checkout? && tx.pc == LockingProducts(fp, store, lines, 0) && tx.job.req.cart in db.carts && lines != []
    ensures
      var priced := PricedLines(db, tx, lines, store, w);
      CartPresent(db, tx) && CartPresent(db, AfterPricing(tx, priced))
      && RunAlone(db, tx, w) == RunAlone(db, AfterPricing(tx, priced), w)
  {
    var read := tx.(pc := PricesRead(fp, store, lines, w.products(store)));
    AloneTakesProductLocks(db, tx, fp, store, lines, 0, w);
    AloneStep(db, read, db, AfterPricing(tx, PricedLines(db, tx, lines, store, w)), w);
  }

  function AfterPricing(tx: Tx, priced: Result<int, ItemError>): Tx
    requires tx.pc.LockingProducts?
  {
    tx.(pc :=
      match priced
      case Ok(subtotal) => Checked(tx.pc.fp, tx.pc.store, tx.pc.lines, subtotal)
      case Err(e) => Finished(Refused(Item(e))))
  }

  class CheckoutService {
    var now: int
    var stock: map<(StoreId, ProductId), int>
    var carts: map<CartId, Cart>
    var orders: seq<Order>
    var reservations: seq<Reservation>
    var events: seq<OrderEvent>

    function Tables(): Db
      reads this
    {
      Db(now, stock, carts, orders, reservations, events)
    }

    constructor (db: Db)
      ensures Tables() == db
    {
      now, stock, carts, orders := db.now, db.stock, db.carts, db.orders;
      reservations, events := db.reservations, db.events;
    }

    // SELECT * FROM web_orders WHERE idempotency_key = .. AND customer_id = ..
    method FindByKey(customer: CustomerId, key: string) returns (found: Option<nat>)
      ensures found == FindOrder(orders, customer, key)
    {
      var n := |orders|;
      assert orders[..n] == orders;
      while n > 0
        invariant 0 <= n <= |orders|
        invariant FindOrder(orders, customer, key) == FindOrder(orders[..n], customer, key)
      {
        assert orders[..n][..n - 1] == orders[..n - 1];
        if orders[n - 1].customer == customer && orders[n - 1].key == key {
          return Some(n - 1);
        }
        n := n - 1;
      }
      found := None;
    }

    method InsertReservations(order: nat, store: StoreId, lines: seq<Line>)
      modifies this`reservations
      ensures reservations == old(reservations) + NewReservations(order, store, lines, now)
    {
      var before := reservations;
      for i := 0 to |lines|
        invariant reservations == before + NewReservations(order, store, lines[..i], now)
      {
        var row := Reservation(Some(order), None, lines[i].product, store, lines[i].quantity, now + RESERVATION_MS, Held);
        assert NewReservations(order, store, lines[..i + 1], now) == NewReservations(order, store, lines[..i], now) + [row];
        reservations := reservations + [row];
      }
      assert lines[..|lines|] == lines;
    }

    // Reads the catalogue and the stock of the lines of a held cart, and prices them.
    method CheckItems(lines: seq<Line>, store: StoreId, w: World) returns (r: Result<int, ItemError>)
      requires lines != []
      ensures r == ItemCheck(CheckoutLines(lines, StoreView(w.products(store), StockRows(Tables(), store, lines, now))))
    {
      var view := StoreView(w.products(store), StockRows(Tables(), store, lines, now));
      var canonical := LoadCanonicalCartItems(view, Requests(lines));
      r := PriceItems(canonical.value);
    }

    method CreateCodOrder(req: Request, w: World) returns (outcome: Outcome)
      modifies this`carts, this`orders, this`reservations, this`events
      ensures (Tables(), outcome) == RunAlone(old(Tables()), Started(old(Tables()), Checkout(req)), w)
    {
      ghost var db := Tables();
      ghost var tx := Started(db, Checkout(req));
      var rows := CartRows(Tables(), req);
      var fp := FingerprintOf(req, rows);
      AloneStep(db, tx, db, tx.(pc := KeyHeld), w);
      AloneStep(db, tx.(pc := KeyHeld), db, tx.(pc := Fingerprinted(fp)), w);
      var existing := FindByKey(req.customer, req.key);
      if existing.Some? {
        outcome := if orders[existing.value].fingerprint != fp then Conflict else Replayed(existing.value);
        AloneStep(db, tx.(pc := Fingerprinted(fp)), db, tx.(pc := Finished(outcome)), w);
        return;
      }
      AloneStep(db, tx.(pc := Fingerprinted(fp)), db, tx.(pc := NewRequest(fp)), w);
      outcome := CreateNew(req, fp, w);
    }

    method CreateNew(req: Request, fp: Fingerprint, w: World) returns (outcome: Outcome)
      requires FindOrder(orders, req.customer, req.key).None?
      modifies this`carts, this`orders, this`reservations, this`events
      ensures (Tables(), outcome)
           == RunAlone(old(Tables()), Tx(Checkout(req), now, NewRequest(fp)), w)
    {
      ghost var db := Tables();
      ghost var tx := Tx(Checkout(req), now, NewRequest(fp));
      var chosen := FulfillmentStore(req, w);
      if chosen.Err? {
        outcome := Refused(chosen.error);
        AloneStep(db, tx, db, tx.(pc := Finished(outcome)), w);
        return;
      }
      var store := chosen.value;
      AloneStep(db, tx, db, tx.(pc := StoreChosen(fp, store)), w);
      outcome := LockAndInsert(req, fp, store, w);
    }

    method LockAndInsert(req: Request, fp: Fingerprint, store: StoreId, w: World) returns (outcome: Outcome)
      requires FindOrder(orders, req.customer, req.key).None?
      modifies this`carts, this`orders, this`reservations, this`events
      ensures (Tables(), outcome)
           == RunAlone(old(Tables()), Tx(Checkout(req), now, StoreChosen(fp, store)), w)
    {
      ghost var db := Tables();
      ghost var tx := Tx(Checkout(req), now, StoreChosen(fp, store));
      if !CartAvailable(Tables(), req, store) {
        outcome := Refused(CartUnavailable);
        AloneStep(db, tx, db, tx.(pc := Finished(outcome)), w);
        return;
      }
      AloneStep(db, tx, db, tx.(pc := CartHeld(fp, store)), w);
      tx := tx.(pc := CartHeld(fp, store));
      var lines := SortByProduct(carts[req.cart].items);
      if |lines| == 0 {
        outcome := Refused(EmptyCart);
        AloneStep(db, tx, db, tx.(pc := Finished(outcome)), w);
        return;
      }
      AloneStep(db, tx, db, tx.(pc := LockingProducts(fp, store, lines, 0)), w);
      outcome := PriceAndInsert(req, fp, store, lines, w);
    }

    method PriceAndInsert(req: Request, fp: Fingerprint, store: StoreId, lines: seq<Line>, w: World)
      returns (outcome: Outcome)
      requires FindOrder(orders, req.customer, req.key).None? && req.cart in carts && lines != []
      modifies this`carts, this`orders, this`reservations, this`events
      ensures (Tables(), outcome)
           == RunAlone(old(Tables()), Tx(Checkout(req), now, LockingProducts(fp, store, lines, 0)), w)
    {
      AlonePrices(Tables(), Tx(Checkout(req), now, LockingProducts(fp, store, lines, 0)), fp, store, lines, w);
      var checked := CheckItems(lines, store, w);
      if checked.Err? {
        return Refused(Item(checked.error));
      }
      outcome := ChargeAndInsert(req, fp, store, lines, checked.value, w);
    }

    method ChargeAndInsert(req: Request, fp: Fingerprint, store: StoreId, lines: seq<Line>, subtotal: int, w: World)
      returns (outcome: Outcome)
      requires FindOrder(orders, req.customer, req.key).None? && req.cart in carts
      modifies this`carts, this`orders, this`reservations, this`events
      ensures (Tables(), outcome)
           == RunAlone(old(Tables()), Tx(Checkout(req), now, Checked(fp, store, lines, subtotal)), w)
    {
      ghost var db := Tables();
      ghost var tx := Tx(Checkout(req), now, Checked(fp, store, lines, subtotal));
      var shipping := Shipping(req, w, store, subtotal);
      if shipping.Err? {
        outcome := Refused(shipping.error);
        AloneStep(db, tx, db, tx.(pc := Finished(outcome)), w);
        return;
      }
      AloneStep(db, tx, db, tx.(pc := Charged(fp, store, lines, subtotal, shipping.value)), w);
      tx := tx.(pc := Charged(fp, store, lines, subtotal, shipping.value));
      if w.orderNumberTaken {
        outcome := Refused(DuplicateRow);
        AloneStep(db, tx, db, tx.(pc := Violated(fp)), w);
        AloneStep(db, tx.(pc := Violated(fp)), db, tx.(pc := Finished(outcome)), w);
        return;
      }
      outcome := InsertOrder(req, fp, store, lines, subtotal, shipping.value);
      AloneStep(db, tx, Tables(), tx.(pc := Finished(outcome)), w);
    }

    // The inserts and the update that end a checkout, up to its commit.
    method InsertOrder(req: Request, fp: Fingerprint, store: StoreId, lines: seq<Line>, subtotal: int, fee: real)
      returns (outcome: Outcome)
      requires req.cart in carts
      modifies this`carts, this`orders, this`reservations, this`events
      ensures Tables() == CommitOrder(old(Tables()), NewOrder(req, Charged(fp, store, lines, subtotal, fee)), now)
      ensures outcome == Created(|old(orders)|)
    {
      var id := |orders|;
      orders := orders + [Order(req.customer, store, Some(req.cart), req.key, fp, PendingPayment, lines,
                                subtotal, fee, subtotal as real / 100.0 + fee)];
      InsertReservations(id, store, lines);
      carts := carts[req.cart := carts[req.cart].(status := Converted)];
      events := events + [OrderEvent(id, None, PendingPayment)];
      outcome := Created(id);
    }

    method CancelCustomerOrder(order: nat, customer: CustomerId, w: World) returns (outcome: Outcome)
      modifies this`orders, this`reservations, this`events
      ensures (Tables(), outcome)
           == RunAlone(old(Tables()), Started(old(Tables()), Cancellation(order, customer)), w)
    {
      ghost var db := Tables();
      ghost var tx := Started(db, Cancellation(order, customer));
      if !(order < |orders| && orders[order].customer == customer) {
        outcome := Refused(NotCancellable);
        AloneStep(db, tx, db, tx.(pc := Finished(outcome)), w);
        return;
      }
      AloneStep(db, tx, db, tx.(pc := OrderHeld), w);
      tx := tx.(pc := OrderHeld);
      var row := orders[order];
      if !Cancellable(row.status) {
        outcome := Refused(NotCancellable);
        AloneStep(db, tx, db, tx.(pc := Finished(outcome)), w);
        return;
      }
      orders := orders[order := row.(status := Cancelled)];
      reservations := Release(reservations, order, row.cart);
      events := events + [OrderEvent(order, Some(row.status), Cancelled)];
      outcome := CancelDone;
      AloneStep(db, tx, Tables(), tx.(pc := Finished(outcome)), w);
    }
  }
}
