// What the order events and the reservations record about the orders, over whole runs.
module OrderLedger {
  import opened Basics
  import opened Identifiers
  import opened CheckoutPricing
  import opened ShopDb
  import opened CheckoutProtocol
  import opened CheckoutSafety

  /******* Order events form a chain whose end is the order's status *******/

  datatype Trail = NotCreated | At(status: OrderStatus) | Broken

  function Leaves(e: OrderEvent): Trail {
    if e.from.Some? then At(e.from.value) else NotCreated
  }

  // Follows the events of one order: each must leave the status that the one before entered.
  function Follow(events: seq<OrderEvent>, order: nat): Trail {
    if events == [] then NotCreated
    else
      var before, last := Follow(events[..|events| - 1], order), events[|events| - 1];
      if last.order != order then before
      else if before != Broken && before == Leaves(last) then At(last.to)
      else Broken
  }

  lemma FollowAppend(events: seq<OrderEvent>, e: OrderEvent, order: nat)
    ensures Follow(events + [e], order) ==
      (if e.order != order then Follow(events, order)
       else if Follow(events, order) != Broken && Follow(events, order) == Leaves(e) then At(e.to)
       else Broken)
  {
    assert (events + [e])[..|events|] == events;
  }

  ghost predicate EventsInv(db: Db) {
    forall o: nat :: Follow(db.events, o) == if o < |db.orders| then At(db.orders[o].status) else NotCreated
  }

  /******* Held reservations match the open orders *******/

  // Units held for one order.
  function HeldFor(rs: seq<Reservation>, order: nat, s: StoreId, p: ProductId): int {
    if rs == [] then 0
    else
      var r := rs[|rs| - 1];
      HeldFor(rs[..|rs| - 1], order, s, p)
      + if r.status == Held && r.order == Some(order) && r.store == s && r.product == p then r.quantity else 0
  }

  // Counted units held for a cart rather than an order.
  function HeldForCart(rs: seq<Reservation>, cart: Option<CartId>, s: StoreId, p: ProductId, at: int): int {
    if rs == [] then 0
    else
      var r := rs[|rs| - 1];
      HeldForCart(rs[..|rs| - 1], cart, s, p, at)
      + if cart.Some? && r.order.None? && r.cart == cart then Share(r, s, p, at) else 0
  }

  // Orders that the store has not taken over for fulfilment.
  predicate CustomersOwn(status: OrderStatus) {
    Cancellable(status) || status == Cancelled
  }

  function OpenQuantity(order: Order, s: StoreId, p: ProductId): int {
    if Cancellable(order.status) && order.store == s then QuantityOf(order.items, p) else 0
  }

  ghost predicate ReservationsInv(db: Db) {
    (forall i :: 0 <= i < |db.reservations| && db.reservations[i].order.Some? ==>
      db.reservations[i].order.value < |db.orders| && db.reservations[i].cart.None?)
    && forall o: nat, s: StoreId, p: ProductId :: o < |db.orders| && CustomersOwn(db.orders[o].status) ==>
         HeldFor(db.reservations, o, s, p) == OpenQuantity(db.orders[o], s, p)
  }

  lemma {:induction false} HeldForNew(rs: seq<Reservation>, id: nat, store: StoreId, lines: seq<Line>, now: int, o: nat, s: StoreId, p: ProductId)
    ensures HeldFor(rs + NewReservations(id, store, lines, now), o, s, p)
         == HeldFor(rs, o, s, p) + if o == id && store == s then QuantityOf(lines, p) else 0
  {
    var added := NewReservations(id, store, lines, now);
    if lines == [] {
      assert rs + added == rs;
    } else {
      var n := |lines| - 1;
      var front := NewReservations(id, store, lines[..n], now);
      HeldForNew(rs, id, store, lines[..n], now, o, s, p);
      assert rs + added == (rs + front) + [added[n]];
      assert ((rs + front) + [added[n]])[..|rs + front|] == rs + front;
    }
  }

  lemma {:induction false} HeldForNobody(rs: seq<Reservation>, o: nat, s: StoreId, p: ProductId)
    requires forall i :: 0 <= i < |rs| && rs[i].order.Some? ==> rs[i].order.value < o
    ensures HeldFor(rs, o, s, p) == 0
  {
    if rs != [] {
      HeldForNobody(rs[..|rs| - 1], o, s, p);
    }
  }

  lemma {:induction false} HeldForReleased(rs: seq<Reservation>, id: nat, cart: Option<CartId>, o: nat, s: StoreId, p: ProductId)
    requires forall i :: 0 <= i < |rs| && rs[i].order.Some? ==> rs[i].cart.None?
    ensures HeldFor(Release(rs, id, cart), o, s, p) == if o == id then 0 else HeldFor(rs, o, s, p)
  {
    if rs != [] {
      var n := |rs| - 1;
      HeldForReleased(rs[..n], id, cart, o, s, p);
      assert Release(rs, id, cart)[..n] == Release(rs[..n], id, cart);
    }
  }

  ghost predicate LedgerInv(db: Db) {
    EventsInv(db) && ReservationsInv(db)
  }

  lemma CommitKeepsLedger(db: Db, order: Order, start: int)
    requires LedgerInv(db) && order.cart.Some? && order.cart.value in db.carts && order.status == PendingPayment
    ensures LedgerInv(CommitOrder(db, order, start))
  {
    var after := CommitOrder(db, order, start);
    var id := |db.orders|;
    forall o: nat ensures Follow(after.events, o) == if o < |after.orders| then At(after.orders[o].status) else NotCreated {
      FollowAppend(db.events, OrderEvent(id, None, PendingPayment), o);
    }
    forall o: nat, s: StoreId, p: ProductId | o < |after.orders| && CustomersOwn(after.orders[o].status)
      ensures HeldFor(after.reservations, o, s, p) == OpenQuantity(after.orders[o], s, p)
    {
      HeldForNew(db.reservations, id, order.store, order.items, start, o, s, p);
      if o == id {
        HeldForNobody(db.reservations, o, s, p);
      }
    }
  }

  lemma CancelKeepsLedger(db: Db, id: nat)
    requires LedgerInv(db) && id < |db.orders| && Cancellable(db.orders[id].status)
    ensures LedgerInv(CancelOrder(db, id))
  {
    var after := CancelOrder(db, id);
    forall o: nat ensures Follow(after.events, o) == if o < |after.orders| then At(after.orders[o].status) else NotCreated {
      FollowAppend(db.events, OrderEvent(id, Some(db.orders[id].status), Cancelled), o);
    }
    forall o: nat, s: StoreId, p: ProductId | o < |after.orders| && CustomersOwn(after.orders[o].status)
      ensures HeldFor(after.reservations, o, s, p) == OpenQuantity(after.orders[o], s, p)
    {
      HeldForReleased(db.reservations, id, db.orders[id].cart, o, s, p);
    }
  }

  lemma StepKeepsLedger(sys: System, a: Action)
    requires Legal(sys) && LedgerInv(sys.db) && Next(sys, a).Some?
    ensures LedgerInv(Next(sys, a).value.db)
  {
    if a.Advance? {
      var tx := sys.txs[a.t];
      OnlyCommitsWrite(sys.db, tx, a.input);
      if tx.job.Checkout? && tx.pc.Charged? && tx.job.req.cart in sys.db.carts {
        CommitKeepsLedger(sys.db, NewOrder(tx.job.req, tx.pc), tx.start);
      } else if tx.job.Cancellation? && tx.job.order < |sys.db.orders| && Cancellable(sys.db.orders[tx.job.order].status) {
        CancelKeepsLedger(sys.db, tx.job.order);
      }
    }
  }

  lemma {:induction false} RunKeepsLedger(sys: System, actions: seq<Action>)
    requires Legal(sys) && LedgerInv(sys.db) && Run(sys, actions).Some?
    ensures LedgerInv(Run(sys, actions).value.db)
    decreases |actions|
  {
    if actions != [] {
      StepKeepsLedger(sys, actions[0]);
      NextKeepsLegal(sys, actions[0]);
      RunKeepsLedger(Next(sys, actions[0]).value, actions[1..]);
    }
  }

  // In every interleaving the events of every order form an unbroken chain that ends in the
  // order's status, and the units held for an order are its items while it can be cancelled,
  // and none once it is cancelled.
  lemma LedgerTellsTheOrders(sys: System, actions: seq<Action>, o: nat, s: StoreId, p: ProductId)
    requires Legal(sys) && LedgerInv(sys.db) && Run(sys, actions).Some?
    requires o < |Run(sys, actions).value.db.orders|
    ensures
      var db := Run(sys, actions).value.db;
      Follow(db.events, o) == At(db.orders[o].status)
      && (CustomersOwn(db.orders[o].status) ==> HeldFor(db.reservations, o, s, p) == OpenQuantity(db.orders[o], s, p))
  {
    RunKeepsLedger(sys, actions);
  }

  // The events that come after the first n do not concern the order.
  predicate NoEventAfter(before: seq<OrderEvent>, after: seq<OrderEvent>, o: nat) {
    |after| >= |before| && after[..|before|] == before
    && forall i :: |before| <= i < |after| ==> after[i].order != o
  }

  lemma StepLeavesCancelled(sys: System, a: Action, o: nat)
    requires Legal(sys) && Next(sys, a).Some? && o < |sys.db.orders| && sys.db.orders[o].status == Cancelled
    ensures
      var next := Next(sys, a).value;
      o < |next.db.orders| && next.db.orders[o].status == Cancelled
      && NoEventAfter(sys.db.events, next.db.events, o)
  {
    if a.Advance? {
      OnlyCommitsWrite(sys.db, sys.txs[a.t], a.input);
    }
  }

  // A cancelled order stays cancelled, and no further event is recorded for it.
  lemma {:induction false} CancelledIsTerminal(sys: System, actions: seq<Action>, o: nat)
    requires Legal(sys) && Run(sys, actions).Some?
    requires o < |sys.db.orders| && sys.db.orders[o].status == Cancelled
    ensures
      var db := Run(sys, actions).value.db;
      o < |db.orders| && db.orders[o].status == Cancelled && NoEventAfter(sys.db.events, db.events, o)
    decreases |actions|
  {
    if actions != [] {
      var next := Next(sys, actions[0]).value;
      NextKeepsLegal(sys, actions[0]);
      StepLeavesCancelled(sys, actions[0], o);
      CancelledIsTerminal(next, actions[1..], o);
      NoEventAfterTransitive(sys.db.events, next.db.events, Run(sys, actions).value.db.events, o);
    }
  }

  lemma NoEventAfterTransitive(a: seq<OrderEvent>, b: seq<OrderEvent>, c: seq<OrderEvent>, o: nat)
    requires NoEventAfter(a, b, o) && NoEventAfter(b, c, o)
    ensures NoEventAfter(a, c, o)
  {
    assert c[..|a|] == c[..|b|][..|a|];
    assert forall i :: 0 <= i < |b| ==> c[i] == c[..|b|][i];
  }

  /******* Cancellation gives back what checkout took *******/

  lemma {:induction false} ReleasedIsHeld(rs: seq<Reservation>, id: nat, cart: Option<CartId>, s: StoreId, p: ProductId, at: int)
    requires forall i :: 0 <= i < |rs| && rs[i].order.Some? ==> rs[i].cart.None?
    ensures ReleasedShare(rs, id, cart, s, p, at) == HeldFor(rs, id, s, p) + HeldForCart(rs, cart, s, p, at)
  {
    if rs != [] {
      ReleasedIsHeld(rs[..|rs| - 1], id, cart, s, p, at);
    }
  }

  predicate HoldsForCart(r: Reservation, cart: Option<CartId>, s: StoreId, p: ProductId, at: int) {
    cart.Some? && r.order.None? && r.cart == cart && Counts(r, at) && r.store == s && r.product == p
  }

  lemma {:induction false} HeldForCartIsZeroIff(rs: seq<Reservation>, cart: Option<CartId>, s: StoreId, p: ProductId, at: int)
    requires forall i :: 0 <= i < |rs| ==> rs[i].quantity > 0
    ensures HeldForCart(rs, cart, s, p, at) >= 0
    ensures HeldForCart(rs, cart, s, p, at) == 0 <==> forall i :: 0 <= i < |rs| ==> !HoldsForCart(rs[i], cart, s, p, at)
  {
    if rs != [] {
      HeldForCartIsZeroIff(rs[..|rs| - 1], cart, s, p, at);
    }
  }

  function Change(before: Db, after: Db, s: StoreId, p: ProductId, at: int): int {
    Reserved(after.reservations, s, p, at) - Reserved(before.reservations, s, p, at)
  }

  // A checkout commits, anything happens, and the order is cancelled: the cancellation takes
  // back exactly what the checkout added, for every store and product. The two cancel out
  // exactly when no reservation is still counted for the cart itself, because cancelling an
  // order also releases those.
  lemma CancelUndoesCheckout(sys: System, t: TxId, actions: seq<Action>, s: StoreId, p: ProductId, at: int)
    requires SysInv(sys) && LedgerInv(sys.db)
    requires t in sys.txs && sys.txs[t].job.Checkout? && sys.txs[t].pc.Charged?
    requires Next(sys, Advance(t, Proceed)).Some?
    requires Legal(Next(sys, Advance(t, Proceed)).value) && Run(Next(sys, Advance(t, Proceed)).value, actions).Some?
    requires
      var later := Run(Next(sys, Advance(t, Proceed)).value, actions).value.db;
      |sys.db.orders| < |later.orders| && Cancellable(later.orders[|sys.db.orders|].status)
    ensures
      var id := |sys.db.orders|;
      var committed := Next(sys, Advance(t, Proceed)).value;
      var later := Run(committed, actions).value.db;
      var cancelled := CancelOrder(later, id);
      Change(sys.db, committed.db, s, p, at) == OpenQuantity(later.orders[id], s, p)
      && Change(sys.db, committed.db, s, p, at) + Change(later, cancelled, s, p, at)
           == -HeldForCart(later.reservations, later.orders[id].cart, s, p, at)
      && (Change(sys.db, committed.db, s, p, at) + Change(later, cancelled, s, p, at) == 0 <==>
            forall i :: 0 <= i < |later.reservations| ==>
              !HoldsForCart(later.reservations[i], later.orders[id].cart, s, p, at))
  {
    var id := |sys.db.orders|;
    var committed := Next(sys, Advance(t, Proceed)).value;
    var order := NewOrder(sys.txs[t].job.req, sys.txs[t].pc);
    assert committed.db == CommitOrder(sys.db, order, sys.txs[t].start);
    ReservedByCommit(sys.db.reservations, id, order.store, order.items, sys.txs[t].start, s, p, at);
    StepKeepsInv(sys, Advance(t, Proceed));
    StepKeepsLedger(sys, Advance(t, Proceed));
    LaterRow(committed, actions, id, s, p);
    var later := Run(committed, actions).value.db;
    CancelReleasesExactly(later, id, s, p, at);
  }

  lemma LaterRow(committed: System, actions: seq<Action>, id: nat, s: StoreId, p: ProductId)
    requires SysInv(committed) && LedgerInv(committed.db) && Run(committed, actions).Some? && id < |committed.db.orders|
    ensures
      var later := Run(committed, actions).value.db;
      id < |later.orders| && later.orders[id] == committed.db.orders[id].(status := later.orders[id].status)
      && LedgerInv(later) && PositiveReservations(later)
  {
    OrdersPersist(committed, actions, id);
    RunKeepsLedger(committed, actions);
    RunKeepsInv(committed, actions);
  }

  lemma CancelReleasesExactly(db: Db, id: nat, s: StoreId, p: ProductId, at: int)
    requires LedgerInv(db) && PositiveReservations(db) && id < |db.orders| && Cancellable(db.orders[id].status)
    ensures
      var cart := db.orders[id].cart;
      Change(db, CancelOrder(db, id), s, p, at)
        == -OpenQuantity(db.orders[id], s, p) - HeldForCart(db.reservations, cart, s, p, at)
      && (HeldForCart(db.reservations, cart, s, p, at) == 0 <==>
            forall i :: 0 <= i < |db.reservations| ==> !HoldsForCart(db.reservations[i], cart, s, p, at))
  {
    var cart := db.orders[id].cart;
    ReservedByCancel(db.reservations, id, cart, s, p, at);
    ReleasedIsHeld(db.reservations, id, cart, s, p, at);
    HeldForCartIsZeroIff(db.reservations, cart, s, p, at);
    assert HeldFor(db.reservations, id, s, p) == OpenQuantity(db.orders[id], s, p);
  }
}
