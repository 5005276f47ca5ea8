// What checkout and cancellation promise their callers, in the fields of the request and the
// rows of the tables: when two requests are the same, what an order costs, who may cancel it.
module CheckoutPromises {
  import opened Basics
  import opened Identifiers
  import opened CartValidation
  import opened CheckoutPricing
  import opened ShopDb
  import opened CheckoutProtocol
  import opened CheckoutSafety
  import opened CheckoutCalls
  import opened CheckoutAgreement

  /******* When two requests are the same *******/

  // t is s[i..j], with white space only around it and none at its ends.
  predicate IsTrimmed(s: string, t: string, i: nat, j: nat) {
    i <= j <= |s| && t == s[i..j]
    && (forall k :: 0 <= k < |s| && (k < i || j <= k) ==> IsSpace(s[k]))
    && (t != "" ==> !IsSpace(t[0]) && !IsSpace(t[|t| - 1]))
  }

  lemma {:induction false} TrimIsTheMiddle(s: string) returns (i: nat, j: nat)
    ensures IsTrimmed(s, Trim(s), i, j)
  {
    if s != [] && IsSpace(s[0]) {
      i, j := TrimIsTheMiddle(s[1..]);
      assert forall k :: 1 <= k < |s| ==> s[k] == s[1..][k - 1];
      i, j := i + 1, j + 1;
    } else if s != [] && IsSpace(s[|s| - 1]) {
      i, j := TrimIsTheMiddle(s[..|s| - 1]);
      assert forall k :: 0 <= k < |s| - 1 ==> s[k] == s[..|s| - 1][k];
    } else {
      i, j := 0, |s|;
    }
  }

  // The text of an optional field, without the white space around it; a field left out is blank.
  function Written(s: Option<string>): string {
    if s.Some? then Trim(s.value) else ""
  }

  function OrZero(n: Option<int>): int {
    if n.Some? then n.value else 0
  }

  function OrBlank(s: Option<string>): string {
    if s.Some? then s.value else ""
  }

  // Two requests ask for the same: all that a customer chooses agrees.
  predicate SameRequest(a: Request, b: Request) {
    a.customer == b.customer && a.cart == b.cart && a.address == b.address && a.deliveryType == b.deliveryType
    && Trim(a.name) == Trim(b.name) && Trim(a.phone) == Trim(b.phone)
    && Written(a.shippingAddress) == Written(b.shippingAddress)
    && OrZero(a.municipality) == OrZero(b.municipality) && OrZero(a.ward) == OrZero(b.ward)
    && Written(a.postalCode) == Written(b.postalCode) && OrBlank(a.country) == OrBlank(b.country)
    && Written(a.notes) == Written(b.notes)
  }

  lemma FingerprintsAgreeIff(a: Request, rows: seq<Line>, b: Request, rows': seq<Line>)
    ensures FingerprintOf(a, rows) == FingerprintOf(b, rows') <==> SameRequest(a, b) && rows == rows'
  {
  }

  // Order i is still there, with whatever status.
  predicate StillThere(before: Db, after: Db, i: nat) {
    i < |before.orders| && i < |after.orders| && after.orders[i] == before.orders[i].(status := after.orders[i].status)
  }

  // After a call with a has created order i, and anything else has happened, a call with b under
  // the same customer and key changes nothing: it returns the order if b asks for the same and
  // finds the rows that a found, and is a conflict otherwise.
  lemma RepeatIsReplayedIff(db: Db, a: Request, w: World, later: Db, b: Request, w': World)
    requires RunAlone(db, Started(db, Checkout(a)), w).1.Created?
    requires StillThere(RunAlone(db, Started(db, Checkout(a)), w).0, later, |db.orders|) && OneOrderPerKey(later)
    requires a.customer == b.customer && a.key == b.key
    ensures
      RunAlone(later, Started(later, Checkout(b)), w')
      == (later, if SameRequest(a, b) && CartRows(db, a) == CartRows(later, b) then Replayed(|db.orders|) else Conflict)
  {
    var i := |db.orders|;
    CreatesIffOrderable(db, a, w);
    var fp := FingerprintOf(b, CartRows(later, b));
    AloneLooksUp(later, b, w');
    StoredIs(later, b, fp, i);
    FingerprintsAgreeIff(a, CartRows(db, a), b, CartRows(later, b));
  }

  // So it is after any run of the system that follows the first call.
  lemma RepeatAfterRun(db: Db, a: Request, w: World, sys: System, actions: seq<Action>, b: Request, w': World)
    requires RunAlone(db, Started(db, Checkout(a)), w).1.Created?
    requires SysInv(sys) && sys.db == RunAlone(db, Started(db, Checkout(a)), w).0 && Run(sys, actions).Some?
    requires a.customer == b.customer && a.key == b.key
    ensures
      var later := Run(sys, actions).value.db;
      RunAlone(later, Started(later, Checkout(b)), w')
      == (later, if SameRequest(a, b) && CartRows(db, a) == CartRows(later, b) then Replayed(|db.orders|) else Conflict)
  {
    CreatesIffOrderable(db, a, w);
    OrdersPersist(sys, actions, |db.orders|);
    RunKeepsInv(sys, actions);
    RepeatIsReplayedIff(db, a, w, Run(sys, actions).value.db, b, w');
  }

  /******* What an order is, and what it costs *******/

  function PriceOf(products: map<ProductId, ProductRow>, p: ProductId): real {
    if p in products && products[p].price.Some? then products[p].price.value else 0.0
  }

  // The rounded price of each row's product times its quantity, added up.
  function Owed(lines: seq<Line>, products: map<ProductId, ProductRow>): int {
    if lines == [] then 0
    else
      var last := lines[|lines| - 1];
      Owed(lines[..|lines| - 1], products) + RoundPaisa(PriceOf(products, last.product)) * last.quantity
  }

  // A row that can be sold: published, priced, and in stock at its quantity.
  predicate SellableRow(line: Line, view: StoreView) {
    line.product in view.products && view.products[line.product].status == Some(Published)
    && PriceOf(view.products, line.product) > 0.0
    && 1 <= line.quantity <= 999
    && line.product in view.stocks
    && line.quantity <= view.stocks[line.product].stock - view.stocks[line.product].reserved
  }

  lemma RowOwes(line: Line, view: StoreView)
    requires SellableRow(line, view)
    ensures
      var checked := Canonical(RequestedItem(line.product, Whole(line.quantity), None), view);
      RoundPaisa(checked.authoritativePrice) * checked.quantity == RoundPaisa(PriceOf(view.products, line.product)) * line.quantity
  {
  }

  lemma {:induction false} ItemCheckCharges(lines: seq<Line>, view: StoreView)
    requires forall i :: 0 <= i < |lines| ==> SellableRow(lines[i], view)
    ensures Sum(LinePaisa(CheckoutLines(lines, view))) == Owed(lines, view.products)
  {
    if lines != [] {
      var n := |lines| - 1;
      ItemCheckCharges(lines[..n], view);
      RowOwes(lines[n], view);
      var front, last := LinePaisa(CheckoutLines(lines[..n], view)), RoundPaisa(PriceOf(view.products, lines[n].product)) * lines[n].quantity;
      assert LinePaisa(CheckoutLines(lines, view)) == front + [last];
      SumAppend(front, last);
    }
  }

  lemma SellableRowIs(line: Line, view: StoreView)
    ensures
      SellableRow(line, view) <==>
        Sellable(RequestedItem(line.product, Whole(line.quantity), None), view) && line.quantity <= AvailableIn(view, line.product)
  {
  }

  // The item check passes exactly when every row can be sold, and then its subtotal is what the
  // rows owe at the prices of their products.
  lemma ItemCheckIs(lines: seq<Line>, view: StoreView)
    ensures
      var check := ItemCheck(CheckoutLines(lines, view));
      (check.Ok? <==> forall i :: 0 <= i < |lines| ==> SellableRow(lines[i], view))
      && (check.Ok? ==> check.value == Owed(lines, view.products))
  {
    CheckPassesIff(lines, view);
    forall i | 0 <= i < |lines|
      ensures SellableRow(lines[i], view) <==>
              Sellable(Requests(lines)[i], view) && lines[i].quantity <= AvailableIn(view, lines[i].product)
    {
      SellableRowIs(lines[i], view);
    }
    if ItemCheck(CheckoutLines(lines, view)).Ok? {
      ItemCheckCharges(lines, view);
    }
  }

  // The cart of the request, as checkout needs it.
  predicate OwnActiveCart(db: Db, req: Request, store: StoreId) {
    req.cart in db.carts && db.carts[req.cart].customer == req.customer
    && db.carts[req.cart].store == store && db.carts[req.cart].status == Active && db.carts[req.cart].items != []
  }

  lemma RowsOfOwnCart(db: Db, req: Request, store: StoreId)
    requires OwnActiveCart(db, req, store)
    ensures CartRows(db, req) != [] && multiset(CartRows(db, req)) == multiset(db.carts[req.cart].items)
  {
  }

  // An order that a call creates is its customer's, from their own active cart in that store,
  // with the rows of the cart, and costs what these owe plus the delivery fee.
  lemma CreatedOrderIs(db: Db, req: Request, w: World)
    requires RunAlone(db, Started(db, Checkout(req)), w).1.Created?
    ensures
      var after := RunAlone(db, Started(db, Checkout(req)), w).0;
      var lines := CartRows(db, req);
      |after.orders| == |db.orders| + 1
      && var order := after.orders[|db.orders|];
      OwnActiveCart(db, req, order.store) && w.acceptsOrders(order.store)
      && (forall i :: 0 <= i < |lines| ==> SellableRow(lines[i], ViewOf(db, w, order.store, lines)))
      && order.customer == req.customer && order.cart == Some(req.cart) && order.key == req.key
      && order.items == lines && order.status == PendingPayment
      && order.subtotalPaisa == Owed(lines, w.products(order.store))
      && order.total == order.subtotalPaisa as real / 100.0 + order.fee
      && after.carts == db.carts[req.cart := db.carts[req.cart].(status := Converted)]
  {
    CreatesIffOrderable(db, req, w);
    var order := OrderOf(db, req, w);
    ItemCheckIs(order.items, ViewOf(db, w, order.store, order.items));
  }

  // No order has the customer and key yet.
  predicate NewKey(db: Db, req: Request) {
    forall i :: 0 <= i < |db.orders| ==> db.orders[i].customer != req.customer || db.orders[i].key != req.key
  }

  // The cart can be ordered from this store as it is.
  predicate CartCanBeOrdered(db: Db, req: Request, w: World, store: StoreId) {
    var lines := CartRows(db, req);
    OwnActiveCart(db, req, store) && forall i :: 0 <= i < |lines| ==> SellableRow(lines[i], ViewOf(db, w, store, lines))
  }

  lemma OrderableAt(db: Db, req: Request, w: World, store: StoreId)
    requires FulfillmentStore(req, w) == Ok(store)
    ensures Orderable(db, req, w) <==>
            NewKey(db, req) && CartCanBeOrdered(db, req, w, store) && !w.orderNumberTaken
            && Shipping(req, w, store, Owed(CartRows(db, req), w.products(store))).Ok?
  {
    ItemCheckIs(CartRows(db, req), ViewOf(db, w, store, CartRows(db, req)));
  }

  lemma OrderAt(db: Db, req: Request, w: World, store: StoreId)
    requires FulfillmentStore(req, w) == Ok(store) && Orderable(db, req, w)
    ensures
      var order := OrderOf(db, req, w);
      order.store == store && order.subtotalPaisa == Owed(CartRows(db, req), w.products(store))
      && Ok(order.fee) == Shipping(req, w, store, order.subtotalPaisa)
  {
    ItemCheckIs(CartRows(db, req), ViewOf(db, w, store, CartRows(db, req)));
  }

  lemma PickupStoreIs(req: Request, w: World, store: StoreId)
    requires req.deliveryType == Pickup
    ensures FulfillmentStore(req, w) == Ok(store) <==> w.defaultStore == Some(store) && w.acceptsOrders(store)
    ensures forall subtotal :: Shipping(req, w, store, subtotal) == Ok(0.0)
  {
  }

  lemma CreatedAt(db: Db, req: Request, w: World)
    ensures
      var result := RunAlone(db, Started(db, Checkout(req)), w);
      (result.1.Created? <==> Orderable(db, req, w))
      && (Orderable(db, req, w) ==>
            result.1 == Created(|db.orders|) && result.0.orders == db.orders + [OrderOf(db, req, w)])
  {
    CreatesIffOrderable(db, req, w);
  }

  // For every pickup: an order is created exactly when the key is new, the default store is open,
  // the cart is the customer's active one there with rows that can all be sold, and the order
  // number is free. It costs no delivery fee.
  lemma PickupIsOrderedIff(db: Db, req: Request, w: World)
    requires req.deliveryType == Pickup
    ensures
      var result := RunAlone(db, Started(db, Checkout(req)), w);
      (result.1.Created? <==>
         NewKey(db, req) && w.defaultStore.Some? && w.acceptsOrders(w.defaultStore.value)
         && CartCanBeOrdered(db, req, w, w.defaultStore.value) && !w.orderNumberTaken)
      && (result.1.Created? ==>
            |result.0.orders| == |db.orders| + 1 && w.defaultStore == Some(result.0.orders[|db.orders|].store)
            && result.0.orders[|db.orders|].fee == 0.0)
  {
    CreatedAt(db, req, w);
    if w.defaultStore.Some? && w.acceptsOrders(w.defaultStore.value) {
      var store := w.defaultStore.value;
      PickupStoreIs(req, w, store);
      OrderableAt(db, req, w, store);
      if Orderable(db, req, w) {
        OrderAt(db, req, w, store);
      }
    }
  }

  // Where a delivery goes: to the customer's saved address, complete and in its ward, in this
  // market, with a street, through the store that serves it.
  predicate DeliveryPlace(req: Request, w: World, m: int, ward: int, store: StoreId) {
    req.address.Some? && w.address(req.address.value, req.customer) == Some(Address(Some(m), Some(ward)))
    && m != 0 && ward != 0 && w.wardInMunicipality(ward, m) && w.resolveStore(m, ward) == Some(store)
    && w.acceptsOrders(store) && req.country == Some(w.country) && w.divisionKnown(m, ward)
    && (w.hasStreet(req.address.value) || (req.shippingAddress.Some? && req.shippingAddress.value != ""))
  }

  // This store delivers a cart of this worth there, at this fee.
  ghost predicate Delivers(req: Request, w: World, store: StoreId, subtotal: int, fee: real) {
    exists m, ward ::
      DeliveryPlace(req, w, m, ward, store) && w.deliveryFee(m, ward, store, subtotal as real / 100.0) == Some(fee)
  }

  lemma DeliversIff(req: Request, w: World, store: StoreId, subtotal: int, fee: real)
    requires req.deliveryType == Delivery
    ensures Delivers(req, w, store, subtotal, fee)
            <==> FulfillmentStore(req, w) == Ok(store) && Shipping(req, w, store, subtotal) == Ok(fee)
  {
    if FulfillmentStore(req, w) == Ok(store) && Shipping(req, w, store, subtotal) == Ok(fee) {
      var place := SavedAddress(req, w).value;
      assert DeliveryPlace(req, w, place.0, place.1, store);
    }
  }

  // For every delivery: an order at a store and fee is created exactly when the key is new, that
  // store delivers the cart's worth at that fee, the cart is the customer's active one there with
  // rows that can all be sold, and the order number is free.
  lemma DeliveryIsOrderedIff(db: Db, req: Request, w: World, store: StoreId, fee: real)
    requires req.deliveryType == Delivery
    ensures
      var result := RunAlone(db, Started(db, Checkout(req)), w);
      result.1.Created? && |result.0.orders| == |db.orders| + 1
      && result.0.orders[|db.orders|].store == store && result.0.orders[|db.orders|].fee == fee
      <==>
      NewKey(db, req) && Delivers(req, w, store, Owed(CartRows(db, req), w.products(store)), fee)
      && CartCanBeOrdered(db, req, w, store) && !w.orderNumberTaken
  {
    CreatedAt(db, req, w);
    DeliversIff(req, w, store, Owed(CartRows(db, req), w.products(store)), fee);
    if FulfillmentStore(req, w).Ok? {
      var at := FulfillmentStore(req, w).value;
      OrderableAt(db, req, w, at);
      if Orderable(db, req, w) {
        OrderAt(db, req, w, at);
      }
    }
  }

  /******* Why a checkout is refused *******/

  // The error of the first row that cannot be sold.
  lemma ItemErrorIs(lines: seq<Line>, view: StoreView, i: nat)
    requires i < |lines| && !SellableRow(lines[i], view) && forall k :: 0 <= k < i ==> SellableRow(lines[k], view)
    ensures
      var p := lines[i].product;
      var published := p in view.products && view.products[p].status == Some(Published);
      ItemCheck(CheckoutLines(lines, view)) == Err(
        if !published then UnavailableProduct
        else if !(1 <= lines[i].quantity <= 999) then PriceUnavailable(p)
        else if PriceOf(view.products, p) <= 0.0 then UnavailableProduct
        else NotEnoughStock(p))
  {
    var checked := CheckoutLines(lines, view);
    forall k | 0 <= k <= i
      ensures checked[k].status == Valid <==> SellableRow(lines[k], view)
    {
      assert checked[k] == Canonical(Requests(lines)[k], view);
    }
    assert AllValid(checked[..i]);
    FirstErrorAt(checked, i);
  }

  // The refusals of a pickup under a new key, in the order in which they are met.
  lemma PickupRefusalIs(db: Db, req: Request, w: World)
    requires req.deliveryType == Pickup && NewKey(db, req)
    ensures
      var outcome := RunAlone(db, Started(db, Checkout(req)), w).1;
      if w.defaultStore.None? then outcome == Refused(NoOpenStore)
      else if !w.acceptsOrders(w.defaultStore.value) then outcome == Refused(StoreClosed)
      else if !(req.cart in db.carts && db.carts[req.cart].customer == req.customer
                && db.carts[req.cart].store == w.defaultStore.value && db.carts[req.cart].status == Active)
      then outcome == Refused(CartUnavailable)
      else if db.carts[req.cart].items == [] then outcome == Refused(EmptyCart)
      else if !CartCanBeOrdered(db, req, w, w.defaultStore.value) then outcome.Refused? && outcome.reason.Item?
      else if w.orderNumberTaken then outcome == Refused(DuplicateRow)
      else outcome == Created(|db.orders|)
  {
    var fp := FingerprintOf(req, CartRows(db, req));
    AloneLooksUp(db, req, w);
    match FulfillmentStore(req, w)
    case Err(e) => AloneStep(db, At(db, req, NewRequest(fp)), db, At(db, req, Finished(Refused(e))), w);
    case Ok(store) => PickupRefusedLater(db, req, w, store);
  }

  lemma PickupRefusedLater(db: Db, req: Request, w: World, store: StoreId)
    requires req.deliveryType == Pickup && NewKey(db, req) && FulfillmentStore(req, w) == Ok(store)
    ensures
      var fp := FingerprintOf(req, CartRows(db, req));
      var outcome := RunAlone(db, At(db, req, NewRequest(fp)), w).1;
      if !CartAvailable(db, req, store) then outcome == Refused(CartUnavailable)
      else if db.carts[req.cart].items == [] then outcome == Refused(EmptyCart)
      else if !CartCanBeOrdered(db, req, w, store) then outcome.Refused? && outcome.reason.Item?
      else if w.orderNumberTaken then outcome == Refused(DuplicateRow)
      else outcome == Created(|db.orders|)
  {
    var fp := FingerprintOf(req, CartRows(db, req));
    if CartAvailable(db, req, store) && CartRows(db, req) != [] {
      PickupItems(db, req, w, store);
    } else {
      PickupCart(db, req, w, store, fp);
    }
  }

  lemma PickupCart(db: Db, req: Request, w: World, store: StoreId, fp: Fingerprint)
    requires req.deliveryType == Pickup && FulfillmentStore(req, w) == Ok(store)
    requires !CartAvailable(db, req, store) || CartRows(db, req) == []
    ensures RunAlone(db, At(db, req, NewRequest(fp)), w).1
         == Refused(if CartAvailable(db, req, store) then EmptyCart else CartUnavailable)
  {
    AloneStep(db, At(db, req, NewRequest(fp)), db, At(db, req, StoreChosen(fp, store)), w);
    if !CartAvailable(db, req, store) {
      AloneStep(db, At(db, req, StoreChosen(fp, store)), db, At(db, req, Finished(Refused(CartUnavailable))), w);
    } else {
      AloneStep(db, At(db, req, StoreChosen(fp, store)), db, At(db, req, CartHeld(fp, store)), w);
      AloneStep(db, At(db, req, CartHeld(fp, store)), db, At(db, req, Finished(Refused(EmptyCart))), w);
    }
  }

  lemma PickupItems(db: Db, req: Request, w: World, store: StoreId)
    requires req.deliveryType == Pickup && NewKey(db, req) && FulfillmentStore(req, w) == Ok(store)
    requires CartAvailable(db, req, store) && CartRows(db, req) != []
    ensures
      var outcome := RunAlone(db, At(db, req, NewRequest(FingerprintOf(req, CartRows(db, req)))), w).1;
      if !CartCanBeOrdered(db, req, w, store) then outcome.Refused? && outcome.reason.Item?
      else outcome == if w.orderNumberTaken then Refused(DuplicateRow) else Created(|db.orders|)
  {
    var lines := CartRows(db, req);
    var fp := FingerprintOf(req, lines);
    AloneHoldsCart(db, req, w, fp);
    AloneChecksItems(db, req, w, fp, store, lines);
    assert Subtotal(db, w, store, lines).Ok? <==> CartCanBeOrdered(db, req, w, store) by {
      ItemCheckIs(lines, ViewOf(db, w, store, lines));
    }
    if Subtotal(db, w, store, lines).Ok? {
      PickupCharged(db, req, w, fp, store, lines, Subtotal(db, w, store, lines).value);
    }
  }

  lemma PickupCharged(db: Db, req: Request, w: World, fp: Fingerprint, store: StoreId, lines: seq<Line>, subtotal: int)
    requires req.deliveryType == Pickup && req.cart in db.carts && FindOrder(db.orders, req.customer, req.key).None?
    ensures RunAlone(db, At(db, req, Checked(fp, store, lines, subtotal)), w).1
         == if w.orderNumberTaken then Refused(DuplicateRow) else Created(|db.orders|)
  {
    var charged := Charged(fp, store, lines, subtotal, 0.0);
    AloneStep(db, At(db, req, Checked(fp, store, lines, subtotal)), db, At(db, req, charged), w);
    if w.orderNumberTaken {
      AloneStep(db, At(db, req, charged), db, At(db, req, Violated(fp)), w);
      AloneStep(db, At(db, req, Violated(fp)), db, At(db, req, Finished(Refused(DuplicateRow))), w);
    } else {
      AloneStep(db, At(db, req, charged), CommitOrder(db, NewOrder(req, charged), db.now),
                At(db, req, Finished(Created(|db.orders|))), w);
    }
  }

  // Why no store takes a delivery.
  lemma DeliveryStoreRefusalIs(db: Db, req: Request, w: World)
    requires req.deliveryType == Delivery && NewKey(db, req)
    ensures
      var outcome := RunAlone(db, Started(db, Checkout(req)), w).1;
      if req.address.None? then outcome == Refused(AddressRequired)
      else
        match w.address(req.address.value, req.customer)
        case None => outcome == Refused(AddressIncomplete)
        case Some(a) =>
          if OrZero(a.municipality) == 0 || OrZero(a.ward) == 0 then outcome == Refused(AddressIncomplete)
          else if !w.wardInMunicipality(a.ward.value, a.municipality.value) then outcome == Refused(WardMismatch)
          else
            match w.resolveStore(a.municipality.value, a.ward.value)
            case None => outcome == Refused(OutsideDeliveryAreas)
            case Some(store) => !w.acceptsOrders(store) ==> outcome == Refused(StoreClosed)
  {
    var fp := FingerprintOf(req, CartRows(db, req));
    AloneLooksUp(db, req, w);
    match FulfillmentStore(req, w)
    case Err(e) => AloneStep(db, At(db, req, NewRequest(fp)), db, At(db, req, Finished(Refused(e))), w);
    case Ok(store) =>
  }

  /******* Who cancels an order *******/

  predicate OpenForCancel(status: OrderStatus) {
    status == Pending || status == PendingPayment || status == Confirmed
  }

  // A cancellation by itself succeeds exactly for an order of the caller that is pending, pending
  // payment or confirmed; otherwise nothing changes.
  lemma CancelsIff(db: Db, order: nat, customer: CustomerId, w: World)
    ensures
      var result := RunAlone(db, Started(db, Cancellation(order, customer)), w);
      if order < |db.orders| && db.orders[order].customer == customer && OpenForCancel(db.orders[order].status)
      then
        result.1 == CancelDone && |result.0.orders| == |db.orders|
        && (forall i :: 0 <= i < |db.orders| ==>
              result.0.orders[i] == if i == order then db.orders[i].(status := Cancelled) else db.orders[i])
        && result.0.stock == db.stock && result.0.carts == db.carts
        && result.0.events == db.events + [OrderEvent(order, Some(db.orders[order].status), Cancelled)]
      else result == (db, Refused(NotCancellable))
  {
    var tx := Started(db, Cancellation(order, customer));
    var held := tx.(pc := OrderHeld);
    if order < |db.orders| && db.orders[order].customer == customer {
      AloneStep(db, tx, db, held, w);
      if OpenForCancel(db.orders[order].status) {
        AloneStep(db, held, CancelOrder(db, order), held.(pc := Finished(CancelDone)), w);
      } else {
        AloneStep(db, held, db, held.(pc := Finished(Refused(NotCancellable))), w);
      }
    } else {
      AloneStep(db, tx, db, tx.(pc := Finished(Refused(NotCancellable))), w);
    }
  }

  // Whoever holds an order to cancel it is its customer.
  predicate HoldersOwn(sys: System) {
    forall t :: t in sys.txs && sys.txs[t].job.Cancellation? && sys.txs[t].pc.OrderHeld? ==>
      OwnOrder(sys.db, sys.txs[t].job)
  }

  predicate OwnOrder(db: Db, job: Job) {
    job.Cancellation? && job.order < |db.orders| && db.orders[job.order].customer == job.customer
  }

  lemma OrdersKeepCustomers(sys: System, a: Action)
    requires Legal(sys) && Next(sys, a).Some?
    ensures
      var orders := Next(sys, a).value.db.orders;
      |orders| >= |sys.db.orders| && forall i :: 0 <= i < |sys.db.orders| ==> orders[i].customer == sys.db.orders[i].customer
  {
    if a.Advance? {
      OnlyCommitsWrite(sys.db, sys.txs[a.t], a.input);
    }
  }

  lemma TakesOwnOrder(db: Db, tx: Tx, input: Input)
    requires WellFormed(tx) && tx.job.Cancellation? && TxNext(db, tx, input).Some?
    ensures
      var (db', tx') := TxNext(db, tx, input).value;
      tx'.job == tx.job && (tx'.pc.OrderHeld? ==> OwnOrder(db, tx.job))
      && (tx'.pc == Finished(CancelDone) ==> tx.pc.OrderHeld? && tx.job.order < |db.orders| && OpenForCancel(db.orders[tx.job.order].status))
  {
  }

  lemma StepKeepsHolders(sys: System, a: Action)
    requires Legal(sys) && HoldersOwn(sys) && Next(sys, a).Some?
    ensures HoldersOwn(Next(sys, a).value)
  {
    var next := Next(sys, a).value;
    OrdersKeepCustomers(sys, a);
    if a.Advance? {
      StepKeepsJob(sys.db, sys.txs[a.t], a.input);
      if sys.txs[a.t].job.Cancellation? {
        TakesOwnOrder(sys.db, sys.txs[a.t], a.input);
      }
    }
    forall t | t in next.txs && next.txs[t].job.Cancellation? && next.txs[t].pc.OrderHeld?
      ensures OwnOrder(next.db, next.txs[t].job)
    {
      if !(a.Advance? && a.t == t) {
        assert t in sys.txs && next.txs[t] == sys.txs[t];
      }
    }
  }

  // Order o is cancelled.
  predicate IsCancelled(db: Db, o: nat) {
    o < |db.orders| && db.orders[o].status == Cancelled
  }

  // Transaction t has cancelled order o for its customer.
  predicate CancelledBy(sys: System, t: TxId, o: nat) {
    t in sys.txs && o < |sys.db.orders|
    && sys.txs[t].job == Cancellation(o, sys.db.orders[o].customer) && sys.txs[t].pc == Finished(CancelDone)
  }

  // An action by which an order becomes cancelled is the last statement of its customer's own
  // cancellation, and finds it open.
  lemma CancellingStep(sys: System, a: Action, o: nat)
    requires Legal(sys) && HoldersOwn(sys) && Next(sys, a).Some?
    requires !IsCancelled(sys.db, o) && IsCancelled(Next(sys, a).value.db, o)
    ensures a.Advance? && CancelledBy(Next(sys, a).value, a.t, o)
    ensures o < |sys.db.orders| && OpenForCancel(sys.db.orders[o].status)
  {
    if a.Advance? {
      OnlyCommitsWrite(sys.db, sys.txs[a.t], a.input);
      StepKeepsJob(sys.db, sys.txs[a.t], a.input);
      if sys.txs[a.t].job.Cancellation? {
        TakesOwnOrder(sys.db, sys.txs[a.t], a.input);
      }
    }
  }

  lemma {:induction false} CancelledByStays(sys: System, actions: seq<Action>, t: TxId, o: nat)
    requires Legal(sys) && Run(sys, actions).Some? && CancelledBy(sys, t, o)
    ensures CancelledBy(Run(sys, actions).value, t, o)
    decreases |actions|
  {
    if actions != [] {
      NextKeepsLegal(sys, actions[0]);
      OrdersKeepCustomers(sys, actions[0]);
      CancelledByStays(Next(sys, actions[0]).value, actions[1..], t, o);
    }
  }

  // In every run, an order that becomes cancelled was cancelled by its own customer.
  lemma {:induction false} OnlyItsCustomerCancels(sys: System, actions: seq<Action>, o: nat) returns (t: TxId)
    requires Legal(sys) && HoldersOwn(sys) && Run(sys, actions).Some?
    requires !IsCancelled(sys.db, o) && IsCancelled(Run(sys, actions).value.db, o)
    ensures CancelledBy(Run(sys, actions).value, t, o)
    decreases |actions|
  {
    var next := Next(sys, actions[0]).value;
    NextKeepsLegal(sys, actions[0]);
    StepKeepsHolders(sys, actions[0]);
    if IsCancelled(next.db, o) {
      CancellingStep(sys, actions[0], o);
      t := actions[0].t;
      CancelledByStays(next, actions[1..], t, o);
    } else {
      t := OnlyItsCustomerCancels(next, actions[1..], o);
    }
  }

  /******* What a validation says *******/

  // A Ready validation of rows asks for what they owe, plus the fee.
  lemma ReadySubtotalIs(db: Snapshot, customer: CustomerId, addressId: AddressId, items: seq<RequestedItem>, lines: seq<Line>)
    requires SameCart(items, lines)
    requires Validation(db, customer, addressId, items).Ok? && Validation(db, customer, addressId, items).value.status == Ready
    ensures
      var a := Validation(db, customer, addressId, items).value;
      a.store.Some? && a.fee.Some?
      && (forall i :: 0 <= i < |lines| ==> SellableRow(lines[i], db.view(a.store.value)))
      && a.subtotal == Owed(lines, db.view(a.store.value).products) as real / 100.0 && a.total == a.subtotal + a.fee.value
  {
    ReadyMeansAccepted(db, customer, addressId, items, lines);
    ItemCheckIs(lines, db.view(Validation(db, customer, addressId, items).value.store.value));
  }

  // The issues of a requested line, in terms of the rows that were read.
  lemma IssuesAre(item: RequestedItem, view: StoreView)
    ensures
      var p, q := item.product, item.quantity;
      var line := Canonical(item, view);
      var listed := p in view.products && view.products[p].status.Some?;
      var priced := PriceOf(view.products, p) > 0.0;
      var available := if p in view.stocks then view.stocks[p].stock - view.stocks[p].reserved else 0;
      var issues :=
        if !listed then [ProductUnavailable]
        else if view.products[p].status.value != Published then [ProductInactive]
        else if !(q.Whole? && 1 <= q.n <= 999) then [InvalidQuantity]
        else if !priced then [ProductUnavailable]
        else if available <= 0 then [OutOfStock]
        else if q.n > available then [InsufficientStock]
        else [];
      var changed := priced && item.clientPrice.Some? && RoundPaisa(item.clientPrice.value) != RoundPaisa(PriceOf(view.products, p));
      line.issues == issues + (if changed then [PriceChanged] else [])
      && line.available == (if available > 0 then available else 0)
      && line.status == (if issues == [InsufficientStock] || (issues == [] && changed) then ChangesRequired
                         else if issues == [] then Valid else Blocked)
      && line.quantity == (if issues == [] then q.n else if issues == [InsufficientStock] then available else 0)
  {
  }

  // Where a validation ends, and its amounts, for an address that can be served.
  lemma AssessmentIs(db: Snapshot, customer: CustomerId, addressId: AddressId, items: seq<RequestedItem>, m: int, ward: int, store: StoreId)
    requires db.address(addressId, customer) == Some(Address(Some(m), Some(ward))) && m != 0 && ward != 0
    requires db.wardInMunicipality(ward, m) && db.resolveStore(m, ward) == Some(store) && items != []
    ensures
      var lines := CanonicalAll(items, db.view(store));
      var subtotal := SumReal(LineTotals(lines));
      var quote := db.deliveryFee(m, ward, store, subtotal);
      var blocked := exists i :: 0 <= i < |lines| && lines[i].status == Blocked;
      var changes := exists i :: 0 <= i < |lines| && lines[i].status == ChangesRequired;
      Validation(db, customer, addressId, items).Ok?
      && var a := Validation(db, customer, addressId, items).value;
      a.store == Some(store) && a.fee == quote && a.items == lines && a.subtotal == subtotal
      && a.total == subtotal + (if quote.Some? then quote.value else 0.0)
      && a.issues == Issues(lines) + (if quote.None? then [AddressUnserviceable] else [])
      && a.status == (if quote.None? || blocked then NotPossible else if changes then NeedsChanges else Ready)
  {
  }

  // Addresses that cannot be served, and why.
  lemma RejectionIs(db: Snapshot, customer: CustomerId, addressId: AddressId, items: seq<RequestedItem>)
    ensures
      var rejected := issue => Validation(db, customer, addressId, items)
                               == Ok(Assessment(NotPossible, None, None, 0.0, 0.0, [], [issue]));
      match db.address(addressId, customer)
      case None => rejected(AddressNotFound)
      case Some(a) =>
        (OrZero(a.municipality) == 0 || OrZero(a.ward) == 0
         || !db.wardInMunicipality(a.ward.value, a.municipality.value)
         || db.resolveStore(a.municipality.value, a.ward.value).None?)
        ==> rejected(AddressUnserviceable)
  {
  }
}
