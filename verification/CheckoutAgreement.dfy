// From validation to order: a delivery cart that validates as Ready is exactly one that checkout
// turns into an order, at the validated total.
module CheckoutAgreement {
  import opened Basics
  import opened Identifiers
  import opened CartValidation
  import opened CheckoutPricing
  import opened ShopDb
  import opened CheckoutProtocol
  import opened CheckoutCalls

  function ViewOf(db: Db, w: World, store: StoreId, lines: seq<Line>): StoreView {
    StoreView(w.products(store), StockRows(db, store, lines, db.now))
  }

  // The state as validation reads it.
  function SnapshotOf(db: Db, w: World, lines: seq<Line>): Snapshot {
    Snapshot(w.address, w.wardInMunicipality, w.resolveStore, w.deliveryFee, store => ViewOf(db, w, store, lines))
  }

  function Subtotal(db: Db, w: World, store: StoreId, lines: seq<Line>): Result<int, ItemError> {
    ItemCheck(CheckoutLines(lines, ViewOf(db, w, store, lines)))
  }

  /******* When a checkout by itself creates an order *******/

  predicate CartReady(db: Db, req: Request, w: World) {
    FindOrder(db.orders, req.customer, req.key).None?
    && FulfillmentStore(req, w).Ok?
    && CartAvailable(db, req, FulfillmentStore(req, w).value)
    && CartRows(db, req) != []
  }

  predicate Orderable(db: Db, req: Request, w: World) {
    CartReady(db, req, w)
    && var store := FulfillmentStore(req, w).value;
    var subtotal := Subtotal(db, w, store, CartRows(db, req));
    subtotal.Ok? && Shipping(req, w, store, subtotal.value).Ok? && !w.orderNumberTaken
  }

  // The order it creates.
  function OrderOf(db: Db, req: Request, w: World): Order
    requires Orderable(db, req, w)
  {
    var store, lines := FulfillmentStore(req, w).value, CartRows(db, req);
    var subtotal := Subtotal(db, w, store, lines).value;
    var fee := Shipping(req, w, store, subtotal).value;
    Order(req.customer, store, Some(req.cart), req.key, FingerprintOf(req, lines), PendingPayment, lines,
          subtotal, fee, subtotal as real / 100.0 + fee)
  }

  function At(db: Db, req: Request, pc: Pc): Tx {
    Tx(Checkout(req), db.now, pc)
  }

  lemma AloneLooksUp(db: Db, req: Request, w: World)
    ensures
      var fp := FingerprintOf(req, CartRows(db, req));
      RunAlone(db, At(db, req, Begun), w) ==
      match Stored(db, req, fp)
      case Some(outcome) => (db, outcome)
      case None => RunAlone(db, At(db, req, NewRequest(fp)), w)
  {
    var fp := FingerprintOf(req, CartRows(db, req));
    AloneStep(db, At(db, req, Begun), db, At(db, req, KeyHeld), w);
    AloneStep(db, At(db, req, KeyHeld), db, At(db, req, Fingerprinted(fp)), w);
    var next := if Stored(db, req, fp).Some? then Finished(Stored(db, req, fp).value) else NewRequest(fp);
    AloneStep(db, At(db, req, Fingerprinted(fp)), db, At(db, req, next), w);
  }

  lemma AloneRefusesCart(db: Db, req: Request, w: World, fp: Fingerprint)
    requires FindOrder(db.orders, req.customer, req.key).None? && !CartReady(db, req, w)
    ensures RunAlone(db, At(db, req, NewRequest(fp)), w).1.Refused?
  {
    match FulfillmentStore(req, w)
    case Err(e) => AloneStep(db, At(db, req, NewRequest(fp)), db, At(db, req, Finished(Refused(e))), w);
    case Ok(store) =>
      AloneStep(db, At(db, req, NewRequest(fp)), db, At(db, req, StoreChosen(fp, store)), w);
      if !CartAvailable(db, req, store) {
        AloneStep(db, At(db, req, StoreChosen(fp, store)), db, At(db, req, Finished(Refused(CartUnavailable))), w);
      } else {
        AloneStep(db, At(db, req, StoreChosen(fp, store)), db, At(db, req, CartHeld(fp, store)), w);
        AloneStep(db, At(db, req, CartHeld(fp, store)), db, At(db, req, Finished(Refused(EmptyCart))), w);
      }
  }

  lemma AloneHoldsCart(db: Db, req: Request, w: World, fp: Fingerprint)
    requires CartReady(db, req, w)
    ensures
      var held := At(db, req, LockingProducts(fp, FulfillmentStore(req, w).value, CartRows(db, req), 0));
      CartPresent(db, held) && RunAlone(db, At(db, req, NewRequest(fp)), w) == RunAlone(db, held, w)
  {
    var store := FulfillmentStore(req, w).value;
    AloneStep(db, At(db, req, NewRequest(fp)), db, At(db, req, StoreChosen(fp, store)), w);
    AloneStep(db, At(db, req, StoreChosen(fp, store)), db, At(db, req, CartHeld(fp, store)), w);
    AloneStep(db, At(db, req, CartHeld(fp, store)), db, At(db, req, LockingProducts(fp, store, CartRows(db, req), 0)), w);
  }

  lemma AloneInserts(db: Db, req: Request, w: World, charged: Pc)
    requires charged.Charged? && req.cart in db.carts && FindOrder(db.orders, req.customer, req.key).None?
    ensures
      var result := RunAlone(db, At(db, req, charged), w);
      if w.orderNumberTaken then result.1.Refused?
      else result == (CommitOrder(db, NewOrder(req, charged), db.now), Created(|db.orders|))
  {
    if w.orderNumberTaken {
      AloneStep(db, At(db, req, charged), db, At(db, req, Violated(charged.fp)), w);
      AloneStep(db, At(db, req, Violated(charged.fp)), db, At(db, req, Finished(Refused(DuplicateRow))), w);
    } else {
      AloneStep(db, At(db, req, charged), CommitOrder(db, NewOrder(req, charged), db.now),
                At(db, req, Finished(Created(|db.orders|))), w);
    }
  }

  lemma AloneCharges(db: Db, req: Request, w: World, fp: Fingerprint, store: StoreId, lines: seq<Line>, subtotal: int)
    requires req.cart in db.carts && FindOrder(db.orders, req.customer, req.key).None?
    ensures
      var shipping := Shipping(req, w, store, subtotal);
      var result := RunAlone(db, At(db, req, Checked(fp, store, lines, subtotal)), w);
      if shipping.Err? || w.orderNumberTaken then result.1.Refused?
      else
        result == (CommitOrder(db, NewOrder(req, Charged(fp, store, lines, subtotal, shipping.value)), db.now),
                   Created(|db.orders|))
  {
    match Shipping(req, w, store, subtotal)
    case Err(e) =>
      AloneStep(db, At(db, req, Checked(fp, store, lines, subtotal)), db, At(db, req, Finished(Refused(e))), w);
    case Ok(fee) =>
      var charged := Charged(fp, store, lines, subtotal, fee);
      AloneStep(db, At(db, req, Checked(fp, store, lines, subtotal)), db, At(db, req, charged), w);
      AloneInserts(db, req, w, charged);
  }

  lemma AloneChecksItems(db: Db, req: Request, w: World, fp: Fingerprint, store: StoreId, lines: seq<Line>)
    requires req.cart in db.carts && lines != []
    ensures
      var result := RunAlone(db, At(db, req, LockingProducts(fp, store, lines, 0)), w);
      var priced := Subtotal(db, w, store, lines);
      if priced.Ok? then result == RunAlone(db, At(db, req, Checked(fp, store, lines, priced.value)), w)
      else result.1 == Refused(Item(priced.error))
  {
    AlonePrices(db, At(db, req, LockingProducts(fp, store, lines, 0)), fp, store, lines, w);
  }

  lemma NewOrderIsOrderOf(db: Db, req: Request, w: World)
    requires Orderable(db, req, w)
    ensures
      var store, lines := FulfillmentStore(req, w).value, CartRows(db, req);
      var subtotal := Subtotal(db, w, store, lines).value;
      NewOrder(req, Charged(FingerprintOf(req, lines), store, lines, subtotal, Shipping(req, w, store, subtotal).value))
      == OrderOf(db, req, w)
  {
  }

  // From a cart that is ready on: an order exactly when the lines, the charge and the row go through.
  lemma ReadyCartEnds(db: Db, req: Request, w: World, fp: Fingerprint)
    requires CartReady(db, req, w) && fp == FingerprintOf(req, CartRows(db, req))
    ensures
      var result := RunAlone(db, At(db, req, NewRequest(fp)), w);
      if Orderable(db, req, w) then result == (CommitOrder(db, OrderOf(db, req, w), db.now), Created(|db.orders|))
      else result.1.Refused?
  {
    var store, lines := FulfillmentStore(req, w).value, CartRows(db, req);
    AloneHoldsCart(db, req, w, fp);
    AloneChecksItems(db, req, w, fp, store, lines);
    match Subtotal(db, w, store, lines)
    case Err(e) =>
    case Ok(subtotal) =>
      AloneCharges(db, req, w, fp, store, lines, subtotal);
      if Orderable(db, req, w) {
        NewOrderIsOrderOf(db, req, w);
      }
  }

  // A checkout by itself creates an order exactly when the request is orderable, and then it
  // leaves exactly that order's commit.
  lemma CreatesIffOrderable(db: Db, req: Request, w: World)
    ensures
      var result := RunAlone(db, Started(db, Checkout(req)), w);
      if Orderable(db, req, w) then result == (CommitOrder(db, OrderOf(db, req, w), db.now), Created(|db.orders|))
      else !result.1.Created?
  {
    var fp := FingerprintOf(req, CartRows(db, req));
    AloneLooksUp(db, req, w);
    if FindOrder(db.orders, req.customer, req.key).None? {
      if CartReady(db, req, w) {
        ReadyCartEnds(db, req, w, fp);
      } else {
        AloneRefusesCart(db, req, w, fp);
      }
    }
  }

  /******* Validation and checkout decide alike *******/

  // What checkout asks of a delivery besides what validation looks at.
  predicate BeyondValidation(db: Db, req: Request, w: World, place: (int, int, StoreId))
    requires req.address.Some?
  {
    FindOrder(db.orders, req.customer, req.key).None?
    && w.acceptsOrders(place.2) && CartAvailable(db, req, place.2)
    && req.country == Some(w.country) && w.divisionKnown(place.0, place.1)
    && (w.hasStreet(req.address.value) || TextOrNull(req.shippingAddress).Some?)
    && !w.orderNumberTaken
  }

  lemma StoreIsResolvedAlike(req: Request, w: World, snapshot: Snapshot)
    requires req.deliveryType == Delivery && req.address.Some?
    requires snapshot.address == w.address && snapshot.wardInMunicipality == w.wardInMunicipality
    requires snapshot.resolveStore == w.resolveStore
    ensures
      var place := ResolveDelivery(snapshot, req.address.value, req.customer);
      FulfillmentStore(req, w).Ok? <==> place.Ok? && w.acceptsOrders(place.value.2)
    ensures
      var place := ResolveDelivery(snapshot, req.address.value, req.customer);
      place.Ok? && w.acceptsOrders(place.value.2) ==>
        FulfillmentStore(req, w) == Ok(place.value.2)
        && SavedAddress(req, w) == Ok((place.value.0, place.value.1))
  {
  }

  lemma ReadyIffPriced(db: Db, w: World, place: (int, int, StoreId), lines: seq<Line>)
    requires lines != []
    ensures
      var a := Assess(SnapshotOf(db, w, lines), place, CanonicalAll(Requests(lines), ViewOf(db, w, place.2, lines)));
      var subtotal := Subtotal(db, w, place.2, lines);
      (a.status == Ready <==>
         subtotal.Ok? && w.deliveryFee(place.0, place.1, place.2, subtotal.value as real / 100.0).Some?)
      && (a.status == Ready ==>
            a.subtotal == subtotal.value as real / 100.0
            && a.fee == w.deliveryFee(place.0, place.1, place.2, subtotal.value as real / 100.0)
            && a.total == subtotal.value as real / 100.0 + a.fee.value)
  {
    var checked := CheckoutLines(lines, ViewOf(db, w, place.2, lines));
    SubtotalsAgree(Requests(lines), lines, ViewOf(db, w, place.2, lines));
    assert AllValid(checked) <==> !Has(checked, Blocked) && !Has(checked, ChangesRequired) by {
      assert forall i :: 0 <= i < |checked| ==> checked[i].status == Valid || checked[i].status == Blocked || checked[i].status == ChangesRequired;
    }
  }

  lemma ValidationAssesses(db: Db, req: Request, w: World, lines: seq<Line>, place: (int, int, StoreId))
    requires req.address.Some? && lines != []
    requires ResolveDelivery(SnapshotOf(db, w, lines), req.address.value, req.customer) == Ok(place)
    ensures Validation(SnapshotOf(db, w, lines), req.customer, req.address.value, Requests(lines))
         == Ok(Assess(SnapshotOf(db, w, lines), place, CanonicalAll(Requests(lines), ViewOf(db, w, place.2, lines))))
  {
    assert |Requests(lines)| == |lines|;
  }

  // The order has the store, the rows and the amounts of the assessment.
  predicate Matches(order: Order, a: Assessment, lines: seq<Line>) {
    Some(order.store) == a.store && order.items == lines
    && order.subtotalPaisa as real / 100.0 == a.subtotal && Some(order.fee) == a.fee && order.total == a.total
  }

  lemma OrderableIffReady(db: Db, req: Request, w: World, place: (int, int, StoreId))
    requires req.deliveryType == Delivery && req.address.Some? && CartRows(db, req) != []
    requires ResolveDelivery(SnapshotOf(db, w, CartRows(db, req)), req.address.value, req.customer) == Ok(place)
    ensures
      var lines := CartRows(db, req);
      var a := Assess(SnapshotOf(db, w, lines), place, CanonicalAll(Requests(lines), ViewOf(db, w, place.2, lines)));
      (Orderable(db, req, w) <==> a.status == Ready && BeyondValidation(db, req, w, place))
      && (Orderable(db, req, w) ==> Matches(OrderOf(db, req, w), a, lines))
  {
    ReadyIffPriced(db, w, place, CartRows(db, req));
    DecideAlike(db, req, w, place);
  }

  lemma CreatedOrder(db: Db, req: Request, w: World)
    requires Orderable(db, req, w)
    ensures
      var result := RunAlone(db, Started(db, Checkout(req)), w);
      result.1 == Created(|db.orders|) && result.0.orders == db.orders + [OrderOf(db, req, w)]
  {
    CreatesIffOrderable(db, req, w);
  }

  // In a fixed state, for every delivery request: checkout creates an order if and only if the
  // cart's rows validate as Ready and the conditions that validation does not look at hold, and
  // the order's store, subtotal, fee and total are the validated ones.
  lemma OrderedIffReady(db: Db, req: Request, w: World)
    requires req.deliveryType == Delivery && req.address.Some? && CartRows(db, req) != []
    ensures
      var lines := CartRows(db, req);
      var snapshot := SnapshotOf(db, w, lines);
      var place := ResolveDelivery(snapshot, req.address.value, req.customer);
      var validation := Validation(snapshot, req.customer, req.address.value, Requests(lines));
      var result := RunAlone(db, Started(db, Checkout(req)), w);
      validation.Ok?
      && (result.1.Created? <==>
            validation.value.status == Ready && place.Ok? && BeyondValidation(db, req, w, place.value))
      && (result.1.Created? ==>
            |result.0.orders| == |db.orders| + 1 && Matches(result.0.orders[|db.orders|], validation.value, lines))
  {
    var lines := CartRows(db, req);
    var snapshot := SnapshotOf(db, w, lines);
    if Orderable(db, req, w) {
      CreatedOrder(db, req, w);
    } else {
      CreatesIffOrderable(db, req, w);
    }
    match ResolveDelivery(snapshot, req.address.value, req.customer)
    case Err(issue) => StoreIsResolvedAlike(req, w, snapshot);
    case Ok(place) =>
      ValidationAssesses(db, req, w, lines, place);
      OrderableIffReady(db, req, w, place);
  }

  lemma DecideAlike(db: Db, req: Request, w: World, place: (int, int, StoreId))
    requires req.deliveryType == Delivery && req.address.Some? && CartRows(db, req) != []
    requires ResolveDelivery(SnapshotOf(db, w, CartRows(db, req)), req.address.value, req.customer) == Ok(place)
    ensures
      var subtotal := Subtotal(db, w, place.2, CartRows(db, req));
      Orderable(db, req, w) <==>
      BeyondValidation(db, req, w, place)
      && subtotal.Ok? && w.deliveryFee(place.0, place.1, place.2, subtotal.value as real / 100.0).Some?
    ensures
      var subtotal := Subtotal(db, w, place.2, CartRows(db, req));
      Orderable(db, req, w) ==>
        var order := OrderOf(db, req, w);
        order.store == place.2 && order.subtotalPaisa == subtotal.value
        && Some(order.fee) == w.deliveryFee(place.0, place.1, place.2, subtotal.value as real / 100.0)
        && order.total == subtotal.value as real / 100.0 + order.fee
  {
    StoreIsResolvedAlike(req, w, SnapshotOf(db, w, CartRows(db, req)));
  }
}
