// The tables that checkout and cancellation read and write, one function per statement.
module ShopDb {
  import opened Basics
  import opened Identifiers
  import opened CheckoutPricing

  datatype CartStatus = Active | Converted | Inactive

  datatype Cart = Cart(customer: CustomerId, store: StoreId, status: CartStatus, items: seq<Line>)

  datatype OrderStatus =
    | Pending | PendingPayment | Confirmed | Processing | Shipped | Delivered | Cancelled | Refunded

  datatype DeliveryType = Delivery | Pickup

  // What identifies a logical request. The digest of these fields is taken to be free of
  // collisions, so the fields stand for their digest.
  datatype Fingerprint = Fingerprint(
    customer: CustomerId,
    cart: CartId,
    rows: seq<Line>,
    address: Option<AddressId>,
    deliveryType: DeliveryType,
    name: string,
    phone: string,
    shippingAddress: Option<string>,
    municipality: Option<int>,
    ward: Option<int>,
    postalCode: Option<string>,
    country: Option<string>,
    notes: Option<string>)

  // A row of web_orders with its web_order_items; the row's position is its id.
  datatype Order = Order(
    customer: CustomerId,
    store: StoreId,
    cart: Option<CartId>,
    key: string,
    fingerprint: Fingerprint,
    status: OrderStatus,
    items: seq<Line>,
    subtotalPaisa: int,
    fee: real,
    total: real)

  datatype ReservationStatus = Held | Released | Consumed | Expired

  datatype Reservation = Reservation(
    order: Option<nat>,
    cart: Option<CartId>,
    product: ProductId,
    store: StoreId,
    quantity: int,
    expiresAt: int,
    status: ReservationStatus)

  // A row of order_events: the status an order left, if any, and the one it entered.
  datatype OrderEvent = OrderEvent(order: nat, from: Option<OrderStatus>, to: OrderStatus)

  // Stock is the summed batch quantity of a product in a store, in hundredths of a unit.
  datatype Db = Db(
    now: int,
    stock: map<(StoreId, ProductId), int>,
    carts: map<CartId, Cart>,
    orders: seq<Order>,
    reservations: seq<Reservation>,
    events: seq<OrderEvent>)

  const RESERVATION_MS := 30 * 60 * 1000

  /******* Stock and reservations *******/

  // The conversion of a numeric to an integer: nearest, halves away from zero.
  function WholeUnits(hundredths: int): int {
    if hundredths >= 0 then (hundredths + 50) / 100 else -((-hundredths + 50) / 100)
  }

  function OnHandHundredths(db: Db, s: StoreId, p: ProductId): int {
    if (s, p) in db.stock then db.stock[(s, p)] else 0
  }

  // The stock figure that the availability query reads.
  function OnHand(db: Db, s: StoreId, p: ProductId): int {
    WholeUnits(OnHandHundredths(db, s, p))
  }

  // A reservation counts when it is held and belongs to an order or has not expired.
  predicate Counts(r: Reservation, at: int) {
    r.status == Held && (r.order.Some? || r.expiresAt > at)
  }

  function Share(r: Reservation, s: StoreId, p: ProductId, at: int): int {
    if Counts(r, at) && r.store == s && r.product == p then r.quantity else 0
  }

  function Reserved(rs: seq<Reservation>, s: StoreId, p: ProductId, at: int): int {
    if rs == [] then 0 else Reserved(rs[..|rs| - 1], s, p, at) + Share(rs[|rs| - 1], s, p, at)
  }

  /******* Orders *******/

  function FindOrder(orders: seq<Order>, customer: CustomerId, key: string): (r: Option<nat>)
    ensures r.Some? ==> r.value < |orders| && orders[r.value].customer == customer && orders[r.value].key == key
    ensures r.None? ==> forall i :: 0 <= i < |orders| ==> orders[i].customer != customer || orders[i].key != key
  {
    if orders == [] then None
    else
      var n := |orders| - 1;
      if orders[n].customer == customer && orders[n].key == key then Some(n)
      else FindOrder(orders[..n], customer, key)
  }

  function NewReservations(order: nat, s: StoreId, lines: seq<Line>, now: int): (rs: seq<Reservation>)
    ensures |rs| == |lines|
  {
    seq(|lines|, i requires 0 <= i < |lines| =>
      Reservation(Some(order), None, lines[i].product, s, lines[i].quantity, now + RESERVATION_MS, Held))
  }

  // The five inserts and updates of a checkout that commits, in the order of its statements.
  function CommitOrder(db: Db, order: Order, start: int): Db
    requires order.cart.Some? && order.cart.value in db.carts
  {
    var id := |db.orders|;
    db.(orders := db.orders + [order],
        reservations := db.reservations + NewReservations(id, order.store, order.items, start),
        carts := db.carts[order.cart.value := db.carts[order.cart.value].(status := Converted)],
        events := db.events + [OrderEvent(id, None, PendingPayment)])
  }

  predicate Cancellable(status: OrderStatus) {
    status == Pending || status == PendingPayment || status == Confirmed
  }

  predicate ReleasedBy(r: Reservation, order: nat, cart: Option<CartId>) {
    r.status == Held && (r.order == Some(order) || (cart.Some? && r.cart == cart))
  }

  function Release(rs: seq<Reservation>, order: nat, cart: Option<CartId>): (out: seq<Reservation>)
    ensures |out| == |rs|
  {
    seq(|rs|, i requires 0 <= i < |rs| =>
      if ReleasedBy(rs[i], order, cart) then rs[i].(status := Released) else rs[i])
  }

  // The two updates and the insert of a cancellation that commits.
  function CancelOrder(db: Db, order: nat): Db
    requires order < |db.orders|
  {
    var row := db.orders[order];
    db.(orders := db.orders[order := row.(status := Cancelled)],
        reservations := Release(db.reservations, order, row.cart),
        events := db.events + [OrderEvent(order, Some(row.status), Cancelled)])
  }

  /******* Sums over the reservations *******/

  // The quantities of the rows that the availability query selects, and nothing for the others.
  function SelectedQuantities(rs: seq<Reservation>, s: StoreId, p: ProductId, at: int): seq<int> {
    seq(|rs|, i requires 0 <= i < |rs| =>
      if rs[i].product == p && rs[i].store == s && rs[i].status == Held && (rs[i].order != None || rs[i].expiresAt > at)
      then rs[i].quantity else 0)
  }

  // What counts as reserved is their sum.
  lemma {:induction false} ReservedIsTheQuery(rs: seq<Reservation>, s: StoreId, p: ProductId, at: int)
    ensures Reserved(rs, s, p, at) == Sum(SelectedQuantities(rs, s, p, at))
  {
    if rs != [] {
      var n := |rs| - 1;
      ReservedIsTheQuery(rs[..n], s, p, at);
      assert SelectedQuantities(rs, s, p, at)[..n] == SelectedQuantities(rs[..n], s, p, at);
    }
  }

  // The stock figure is the whole number nearest to the stock, and of two equally near ones the
  // one farther from zero.
  lemma WholeUnitsIsNearest(hundredths: int, units: int)
    ensures
      units == WholeUnits(hundredths) <==>
        if hundredths >= 0 then -50 <= hundredths - 100 * units < 50 else -50 < hundredths - 100 * units <= 50
  {
  }

  // Each line of an order holds its own quantity of its own product in the order's store, for
  // the order and for half an hour.
  lemma ReservationsAreTheLines(order: nat, s: StoreId, lines: seq<Line>, now: int, i: nat)
    requires i < |lines|
    ensures
      var r := NewReservations(order, s, lines, now)[i];
      r.order == Some(order) && r.cart == None && r.store == s && r.product == lines[i].product
      && r.quantity == lines[i].quantity && r.expiresAt == now + 1_800_000 && r.status == Held
  {
  }

  lemma ReservedAppend(rs: seq<Reservation>, r: Reservation, s: StoreId, p: ProductId, at: int)
    ensures Reserved(rs + [r], s, p, at) == Reserved(rs, s, p, at) + Share(r, s, p, at)
  {
    assert (rs + [r])[..|rs|] == rs;
  }

  lemma {:induction false} ReservedByCommit(
    rs: seq<Reservation>, order: nat, s: StoreId, lines: seq<Line>, now: int, s': StoreId, p: ProductId, at: int)
    ensures Reserved(rs + NewReservations(order, s, lines, now), s', p, at)
         == Reserved(rs, s', p, at) + if s == s' then QuantityOf(lines, p) else 0
  {
    var added := NewReservations(order, s, lines, now);
    if lines == [] {
      assert rs + added == rs;
    } else {
      var n := |lines| - 1;
      var front := NewReservations(order, s, lines[..n], now);
      ReservedByCommit(rs, order, s, lines[..n], now, s', p, at);
      assert rs + added == (rs + front) + [added[n]];
      ReservedAppend(rs + front, added[n], s', p, at);
    }
  }

  // Later moments count no more than earlier ones.
  lemma {:induction false} ReservedShrinksWithTime(rs: seq<Reservation>, s: StoreId, p: ProductId, earlier: int, later: int)
    requires earlier <= later
    requires forall i :: 0 <= i < |rs| ==> rs[i].quantity > 0
    ensures Reserved(rs, s, p, later) <= Reserved(rs, s, p, earlier)
  {
    if rs != [] {
      ReservedShrinksWithTime(rs[..|rs| - 1], s, p, earlier, later);
    }
  }

  // The part of the count that one cancellation releases.
  function ReleasedShare(rs: seq<Reservation>, order: nat, cart: Option<CartId>, s: StoreId, p: ProductId, at: int): int {
    if rs == [] then 0
    else
      var r := rs[|rs| - 1];
      ReleasedShare(rs[..|rs| - 1], order, cart, s, p, at)
      + if ReleasedBy(r, order, cart) then Share(r, s, p, at) else 0
  }

  lemma {:induction false} ReservedByCancel(rs: seq<Reservation>, order: nat, cart: Option<CartId>, s: StoreId, p: ProductId, at: int)
    ensures Reserved(Release(rs, order, cart), s, p, at)
         == Reserved(rs, s, p, at) - ReleasedShare(rs, order, cart, s, p, at)
  {
    if rs != [] {
      var n := |rs| - 1;
      ReservedByCancel(rs[..n], order, cart, s, p, at);
      assert Release(rs, order, cart)[..n] == Release(rs[..n], order, cart);
    }
  }

  lemma {:induction false} ReleasedShareNonNegative(rs: seq<Reservation>, order: nat, cart: Option<CartId>, s: StoreId, p: ProductId, at: int)
    requires forall i :: 0 <= i < |rs| ==> rs[i].quantity > 0
    ensures ReleasedShare(rs, order, cart, s, p, at) >= 0
  {
    if rs != [] {
      ReleasedShareNonNegative(rs[..|rs| - 1], order, cart, s, p, at);
    }
  }

  lemma WholeUnitsMonotone(a: int, b: int)
    requires a <= b
    ensures WholeUnits(a) <= WholeUnits(b)
  {
  }

  // A quantity against an exact stock: over it by half a unit at most, and not at all where the
  // stock's fraction of a unit is below one half.
  predicate WithinStock(hundredths: int, units: int) {
    hundredths >= 0 ==>
      100 * units <= hundredths + 50 && (hundredths % 100 < 50 ==> 100 * units <= hundredths)
  }

  lemma WholeUnitsBoundStock(hundredths: int, units: int)
    requires units <= Max(0, WholeUnits(hundredths))
    ensures WithinStock(hundredths, units)
  {
  }

  // Reserving up to the rounded figure stays within the exact stock exactly when the stock's
  // fraction of a unit is below one half.
  lemma RoundedStockIsSafeIff(hundredths: nat)
    ensures (forall units: nat :: units <= WholeUnits(hundredths) ==> 100 * units <= hundredths)
        <==> hundredths % 100 < 50
  {
    var units: nat := WholeUnits(hundredths);
    if hundredths % 100 >= 50 {
      assert units == hundredths / 100 + 1;
      assert 100 * units > hundredths;
    } else {
      assert units == hundredths / 100;
    }
  }
}
