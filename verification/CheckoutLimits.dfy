// Where the guarantees of checkout and cancellation end: rows that repeat a product oversell, a
// stock with half a unit or more can be oversold, and a cancellation can release more than its
// checkout took.
module CheckoutLimits {
  import opened Basics
  import opened Identifiers
  import opened CartValidation
  import opened CheckoutPricing
  import opened ShopDb
  import opened CheckoutProtocol
  import opened CheckoutSafety
  import opened CheckoutCalls
  import opened CheckoutAgreement
  import opened CartItems

  /******* What a call reads *******/

  // One statement of a transaction by itself: it reads the rows its cart has, or may read them later.
  lemma StatementReads(db: Db, tx: Tx, input: Input)
    requires WellFormed(tx) && tx.job.Checkout? && TxNext(db, tx, input).Some?
    ensures
      var read := RowsRead(System(db, map[0 := tx]), Advance(0, input));
      var (db', tx') := TxNext(db, tx, input).value;
      (read.Some? ==> ReadsCartLater(tx.pc) && read.value == HeldRows(db, tx.job.req))
      && tx'.job == tx.job && (ReadsCartLater(tx'.pc) ==> ReadsCartLater(tx.pc) && db' == db)
  {
    StepMovesOn(db, tx, input);
  }

  // A transaction by itself reads the rows that its cart has, once.
  lemma {:induction false} ScriptReads(db: Db, tx: Tx, w: World, allowed: seq<Line> -> bool)
    requires CartPresent(db, tx) && tx.job.Checkout?
    requires ReadsCartLater(tx.pc) ==> allowed(HeldRows(db, tx.job.req))
    ensures Run(System(db, map[0 := tx]), Script(db, tx, w)).Some?
    ensures ReadsOnly(System(db, map[0 := tx]), Script(db, tx, w), allowed)
    decreases Budget(db, tx)
  {
    if tx.pc.Finished? {
      assert Script(db, tx, w) == [];
    } else {
      var input := Answer(tx, w);
      AnswerIsAccepted(db, tx, w);
      var (db', tx') := TxNext(db, tx, input).value;
      LoneStep(db, tx, input, db', tx');
      StatementReads(db, tx, input);
      ScriptReads(db', tx', w, allowed);
      ReadsOnlyStep(System(db, map[0 := tx]), Advance(0, input), System(db', map[0 := tx']), Script(db', tx', w), allowed);
    }
  }

  lemma ReadsOnlyStep(sys: System, a: Action, next: System, rest: seq<Action>, allowed: seq<Line> -> bool)
    requires Legal(sys) && Next(sys, a) == Some(next) && Legal(next) && Run(next, rest).Some?
    requires ReadsOnly(next, rest, allowed) && (RowsRead(sys, a).Some? ==> allowed(RowsRead(sys, a).value))
    ensures Run(sys, [a] + rest) == Run(next, rest) && ReadsOnly(sys, [a] + rest, allowed)
  {
    RunStep(sys, a, next, rest);
    assert ([a] + rest)[1..] == rest;
  }

  lemma CallReads(db: Db, req: Request, w: World, allowed: seq<Line> -> bool)
    requires allowed(HeldRows(db, req))
    ensures
      var actions := [Begin(0, Checkout(req))] + Script(db, Started(db, Checkout(req)), w);
      Run(System(db, map[]), actions).Some? && ReadsOnly(System(db, map[]), actions, allowed)
  {
    var tx := Started(db, Checkout(req));
    ScriptReads(db, tx, w, allowed);
    ReadsOnlyStep(System(db, map[]), Begin(0, Checkout(req)), System(db, map[0 := tx]), Script(db, tx, w), allowed);
  }

  // What a call that creates an order reserves.
  lemma CallReserves(db: Db, req: Request, w: World, s: StoreId, p: ProductId)
    requires Orderable(db, req, w) && FulfillmentStore(req, w) == Ok(s)
    ensures
      var result := RunAlone(db, Started(db, Checkout(req)), w);
      result.1 == Created(|db.orders|) && |result.0.orders| == |db.orders| + 1
      && result.0.stock == db.stock && result.0.now == db.now
      && Reserved(result.0.reservations, s, p, db.now) == Reserved(db.reservations, s, p, db.now) + QuantityOf(CartRows(db, req), p)
  {
    CreatesIffOrderable(db, req, w);
    ReservedByCommit(db.reservations, |db.orders|, s, CartRows(db, req), db.now, s, p, db.now);
  }

  /******* Rows that repeat a product *******/

  // Nothing is ever oversold when held carts hold only rows of this kind.
  ghost predicate KeepsWithin(allowed: seq<Line> -> bool) {
    forall sys: System, actions: seq<Action> ::
      SysInv(sys) && Guarded(sys) && Run(sys, actions).Some? && ReadsOnly(sys, actions, allowed) ==>
        NoOversell(Run(sys, actions).value.db)
  }

  // A shop with just enough of each product for the largest of the rows that ask for it.
  function Stocked(lines: seq<Line>, p: ProductId): Db {
    var keys := set i | 0 <= i < |lines| :: (0, lines[i].product);
    Db(0, map k | k in keys :: 100 * (if k.1 == p then Largest(OnlyProduct(lines, p)) else Largest(lines)), map[], [], [], [])
  }

  function WithCart(db: Db, lines: seq<Line>): Db {
    db.(carts := map[0 := Cart(0, 0, Active, lines)])
  }

  lemma WholeNumber(n: nat)
    ensures WholeUnits(100 * n) == n
  {
  }

  lemma StockedOnHand(lines: seq<Line>, p: ProductId, i: nat)
    requires i < |lines|
    ensures OnHand(Stocked(lines, p), 0, lines[i].product)
         == if lines[i].product == p then Largest(OnlyProduct(lines, p)) else Largest(lines)
  {
    assert (0, lines[i].product) in Stocked(lines, p).stock;
    var n := if lines[i].product == p then Largest(OnlyProduct(lines, p)) else Largest(lines);
    LargestIsNatural(lines);
    LargestIsNatural(OnlyProduct(lines, p));
    WholeNumber(n);
  }

  lemma StockedIsTight(lines: seq<Line>, p: ProductId, w: World)
    requires w.products(0) == TightView(lines, p).products
    ensures ViewOf(WithCart(Stocked(lines, p), lines), w, 0, lines) == TightView(lines, p)
  {
    var db := WithCart(Stocked(lines, p), lines);
    var rows, tight := StockRows(db, 0, lines, 0), TightView(lines, p).stocks;
    var ids := set i | 0 <= i < |lines| :: lines[i].product;
    forall q | q in ids ensures rows[q] == tight[q] {
      var i :| 0 <= i < |lines| && lines[i].product == q;
      StockedOnHand(lines, p, i);
      assert OnHand(db, 0, q) == OnHand(Stocked(lines, p), 0, q);
    }
    assert rows == tight;
  }

  // What a pickup asks besides its lines.
  lemma PickupIsOrderable(db: Db, req: Request, w: World, lines: seq<Line>)
    requires Opens(req, w) && CartRows(db, req) == lines != [] && CartAvailable(db, req, 0)
    requires FindOrder(db.orders, req.customer, req.key).None? && Subtotal(db, w, 0, lines).Ok?
    ensures Orderable(db, req, w) && FulfillmentStore(req, w) == Ok(0)
  {
  }

  lemma RepeatedIsOrderable(lines: seq<Line>, p: ProductId, req: Request, w: World)
    requires Sorted(lines) && !Harmless(lines) && Opens(req, w) && w.products(0) == TightView(lines, p).products
    ensures
      var db := WithCart(Stocked(lines, p), lines);
      CartRows(db, req) == HeldRows(db, req) == lines && Orderable(db, req, w) && FulfillmentStore(req, w) == Ok(0)
  {
    var db := WithCart(Stocked(lines, p), lines);
    assert CartRows(db, req) == HeldRows(db, req) == lines by {
      SortedIsKept(lines);
    }
    assert lines != [];
    assert Subtotal(db, w, 0, lines).Ok? by {
      StockedIsTight(lines, p, w);
      TightViewPasses(lines, p);
    }
    PickupIsOrderable(db, req, w, lines);
  }

  // Rows that repeat a product, all in range, oversell such a stock.
  lemma RepeatedOversells(lines: seq<Line>, p: ProductId, req: Request, w: World)
    requires Sorted(lines) && !Harmless(lines) && Opens(req, w) && w.products(0) == TightView(lines, p).products
    requires 0 < AvailableIn(TightView(lines, p), p) < QuantityOf(lines, p) && Mentions(lines, p)
    ensures
      var db := WithCart(Stocked(lines, p), lines);
      var result := RunAlone(db, Started(db, Checkout(req)), w);
      result.1.Created? && OnHand(result.0, 0, p) == AvailableIn(TightView(lines, p), p)
      && Reserved(result.0.reservations, 0, p, result.0.now) == QuantityOf(lines, p)
  {
    var db := WithCart(Stocked(lines, p), lines);
    RepeatedIsOrderable(lines, p, req, w);
    CallReserves(db, req, w, 0, p);
    var i :| 0 <= i < |lines| && lines[i].product == p;
    StockedOnHand(lines, p, i);
    var ids := set k | 0 <= k < |lines| :: lines[k].product;
    assert lines[i].product in ids;
  }

  // The cart is created, its rows are written and it is ordered.
  function OrderingRun(db: Db, lines: seq<Line>, req: Request, w: World): seq<Action> {
    var ready := WithCart(db, lines);
    [OpenCart(0, 0, 0)] + ([EditCart(0, lines)]
      + ([Begin(0, Checkout(req))] + Script(ready, Started(ready, Checkout(req)), w)))
  }

  lemma OrderingRunEnds(db: Db, lines: seq<Line>, req: Request, w: World, allowed: seq<Line> -> bool)
    requires db.carts == map[] && allowed(HeldRows(WithCart(db, lines), req))
    ensures
      var sys := System(db, map[]);
      var actions := OrderingRun(db, lines, req, w);
      var ready := WithCart(db, lines);
      Run(sys, actions).Some? && ReadsOnly(sys, actions, allowed)
      && Run(sys, actions).value.db == RunAlone(ready, Started(ready, Checkout(req)), w).0
  {
    var ready := WithCart(db, lines);
    var call := [Begin(0, Checkout(req))] + Script(ready, Started(ready, Checkout(req)), w);
    var empty := System(WithCart(db, []), map[]);
    CallIsARun(ready, Checkout(req), w);
    CallReads(ready, req, w, allowed);
    assert empty.db.carts[0 := empty.db.carts[0].(items := lines)] == ready.carts;
    ReadsOnlyStep(empty, EditCart(0, lines), System(ready, map[]), call, allowed);
    assert db.carts[0 := Cart(0, 0, Active, [])] == empty.db.carts;
    ReadsOnlyStep(System(db, map[]), OpenCart(0, 0, 0), empty, [EditCart(0, lines)] + call, allowed);
  }

  lemma EmptyShopIsSound(db: Db)
    requires db.carts == map[] && db.orders == [] && db.reservations == []
    ensures SysInv(System(db, map[])) && Guarded(System(db, map[]))
  {
  }

  lemma RepeatedRun(lines: seq<Line>, w: World, allowed: seq<Line> -> bool) returns (sys: System, actions: seq<Action>)
    requires Sorted(lines) && allowed(lines) && !Harmless(lines) && Opens(PICKUP, w)
    ensures SysInv(sys) && Guarded(sys) && Run(sys, actions).Some? && ReadsOnly(sys, actions, allowed)
    ensures !NoOversell(Run(sys, actions).value.db)
  {
    var p, i := RepeatedDoesNotFit(lines);
    var sells := w.(products := s => TightView(lines, p).products);
    var db := Stocked(lines, p);
    RepeatedIsOrderable(lines, p, PICKUP, sells);
    RepeatedOversells(lines, p, PICKUP, sells);
    EmptyShopIsSound(db);
    OrderingRunEnds(db, lines, PICKUP, sells, allowed);
    sys, actions := System(db, map[]), OrderingRun(db, lines, PICKUP, sells);
  }

  // Over all runs, with any edits of carts: reservations stay within the stock figure that
  // checkout reads if and only if, whenever a checkout reads its held cart, no product is
  // repeated in it, or a quantity is out of range so that the checkout is refused.
  lemma SafeIffHarmless(allowed: seq<Line> -> bool)
    ensures KeepsWithin(allowed) <==> forall lines :: Sorted(lines) && allowed(lines) ==> Harmless(lines)
  {
    if forall lines :: Sorted(lines) && allowed(lines) ==> Harmless(lines) {
      forall sys: System, actions: seq<Action>
        | SysInv(sys) && Guarded(sys) && Run(sys, actions).Some? && ReadsOnly(sys, actions, allowed)
        ensures NoOversell(Run(sys, actions).value.db)
      {
        RunKeepsGuard(sys, actions, allowed);
      }
    } else {
      var lines :| Sorted(lines) && allowed(lines) && !Harmless(lines);
      var sys, actions := RepeatedRun(lines, OPEN_STORE, allowed);
    }
  }

  // Two racing adds of one unit each to an empty cart, and one unit in stock: the checkout of that
  // cart reserves two.
  lemma RacedAddsOversell(rows: seq<CartRow>, req: Request, w: World)
    requires rows == Write(Write([], LookUp([], 0), Line(0, 1), 1), LookUp([], 0), Line(0, 1), 2)
    requires Opens(req, w) && w.products(0) == TightView(Lines(rows), 0).products
    ensures
      var sys := System(Stocked(Lines(rows), 0), map[]);
      var after := Run(sys, OrderingRun(sys.db, Lines(rows), req, w));
      SysInv(sys) && Guarded(sys) && OnHand(sys.db, 0, 0) == 1 && sys.db.reservations == [] && after.Some?
      && OnHand(after.value.db, 0, 0) == 1 && Reserved(after.value.db.reservations, 0, 0, after.value.db.now) == 2
  {
    var lines := Lines(rows);
    assert lines == [Line(0, 1), Line(0, 1)] by {
      RacingAdds([], 0, 1, 1, 1, 2);
    }
    TwoUnits(lines);
    OneUnitLargest(lines);
    EmptyShopIsSound(Stocked(lines, 0));
    StockedOnHand(lines, 0, 0);
    OrderingRunEnds(Stocked(lines, 0), lines, req, w, _ => true);
    RepeatedOversells(lines, 0, req, w);
  }

  lemma TwoUnits(lines: seq<Line>)
    requires lines == [Line(0, 1), Line(0, 1)]
    ensures Sorted(lines) && !Harmless(lines) && Mentions(lines, 0) && QuantityOf(lines, 0) == 2
  {
    assert lines[0].product == lines[1].product;
    assert lines[..1] == [Line(0, 1)] && lines[..1][..0] == [];
    assert QuantityOf(lines, 0) == QuantityOf(lines[..1], 0) + 1;
  }

  lemma OneUnitLargest(lines: seq<Line>)
    requires lines == [Line(0, 1), Line(0, 1)]
    ensures AvailableIn(TightView(lines, 0), 0) == Largest(OnlyProduct(lines, 0)) == 1
  {
    OnlyProductKeeps(lines, 0, 0);
    var same := OnlyProduct(lines, 0);
    assert forall i :: 0 <= i < |same| ==> same[i] == Line(0, 1);
    var ids := set k | 0 <= k < |lines| :: lines[k].product;
    assert lines[0].product in ids;
  }

  /******* Overselling a fraction of a unit *******/

  ghost predicate WithinExactStock(db: Db, s: StoreId, p: ProductId) {
    100 * Reserved(db.reservations, s, p, db.now) <= OnHandHundredths(db, s, p)
  }

  // The call creates an order that leaves more reserved than there is.
  ghost predicate CallOversells(db: Db, req: Request, w: World, s: StoreId, p: ProductId) {
    var result := RunAlone(db, Started(db, Checkout(req)), w);
    result.1.Created? && result.0.stock == db.stock && !WithinExactStock(result.0, s, p)
  }

  // Any checkout that asks for all that the rounded figure leaves of a stock oversells the exact
  // stock if its fraction of a unit is one half or more.
  lemma LastUnitOversells(db: Db, req: Request, w: World, s: StoreId, p: ProductId)
    requires Orderable(db, req, w) && FulfillmentStore(req, w) == Ok(s)
    requires QuantityOf(CartRows(db, req), p) + Reserved(db.reservations, s, p, db.now) == OnHand(db, s, p)
    requires OnHandHundredths(db, s, p) >= 0 && OnHandHundredths(db, s, p) % 100 >= 50
    ensures CallOversells(db, req, w, s, p)
  {
    CallReserves(db, req, w, s, p);
    FractionRoundsUp(OnHandHundredths(db, s, p));
  }

  lemma FractionRoundsUp(hundredths: nat)
    ensures 100 * WholeUnits(hundredths) > hundredths <==> hundredths % 100 >= 50
  {
  }

  // A shop with one product in one store: a stock, units of it reserved by an earlier order, and
  // an active cart that asks for more.
  const BLANK := Fingerprint(1, 1, [], None, Pickup, "", "", None, None, None, None, None, None)

  function Shop(hundredths: nat, reserved: nat, wanted: int): Db {
    Db(0, map[(0, 0) := hundredths], map[0 := Cart(0, 0, Active, [Line(0, wanted)])],
       if reserved == 0 then [] else [Order(1, 0, None, "", BLANK, PendingPayment, [Line(0, reserved)], 0, 0.0, 0.0)],
       if reserved == 0 then [] else [Reservation(Some(0), None, 0, 0, reserved, 1, Held)],
       if reserved == 0 then [] else [OrderEvent(0, None, PendingPayment)])
  }

  // The customer picks a cart up, in a world where store 0 is open.
  predicate Opens(req: Request, w: World) {
    req.customer == 0 && req.cart == 0 && req.key == "k" && req.deliveryType == Pickup
    && w.defaultStore == Some(0) && w.acceptsOrders(0) && !w.orderNumberTaken
  }

  // And sells product 0.
  predicate Picks(req: Request, w: World) {
    Opens(req, w) && 0 in w.products(0) && w.products(0)[0].status == Some(Published) && Priced(w.products(0)[0])
  }

  const PICKUP := Request(0, 0, 0, "k", None, Pickup, "", "", None, None, None, None, None, None)

  const OPEN_STORE := World(
    "NP", (a, c) => None, a => false, (x, m) => false, (m, x) => false, (m, x) => None, Some(0), s => true,
    s => map[0 := ProductRow(Some(Published), Some(1.0))], (m, x, s, v) => None, false)

  lemma ShopReserves(hundredths: nat, reserved: nat, wanted: int, s: StoreId, p: ProductId, at: int)
    ensures Reserved(Shop(hundredths, reserved, wanted).reservations, s, p, at) == if s == 0 && p == 0 then reserved else 0
  {
    var rs := Shop(hundredths, reserved, wanted).reservations;
    if reserved > 0 {
      assert rs[..0] == [];
    }
  }

  lemma OneLine(wanted: int)
    ensures SortByProduct([Line(0, wanted)]) == [Line(0, wanted)]
    ensures QuantityOf([Line(0, wanted)], 0) == wanted
  {
    assert [Line(0, wanted)][1..] == [];
    assert [Line(0, wanted)][..0] == [];
  }

  lemma ShopRows(db: Db, req: Request, wanted: int)
    requires req.customer == 0 && req.cart == 0
    requires db.carts == map[0 := Cart(0, 0, Active, [Line(0, wanted)])]
    ensures CartRows(db, req) == [Line(0, wanted)]
  {
    OneLine(wanted);
  }

  lemma ShopIsOrderable(db: Db, req: Request, w: World, wanted: int)
    requires Picks(req, w)
    requires db.carts == map[0 := Cart(0, 0, Active, [Line(0, wanted)])] && 1 <= wanted <= 999
    requires FindOrder(db.orders, 0, "k").None?
    requires Reserved(db.reservations, 0, 0, db.now) + wanted <= OnHand(db, 0, 0)
    ensures Orderable(db, req, w) && FulfillmentStore(req, w) == Ok(0)
  {
    var lines := [Line(0, wanted)];
    ShopRows(db, req, wanted);
    var view := ViewOf(db, w, 0, lines);
    assert lines[0].product in view.stocks;
    assert Sellable(Requests(lines)[0], view);
    CheckPassesIff(lines, view);
    PickupIsOrderable(db, req, w, lines);
  }

  lemma ShopIsSound(hundredths: nat, reserved: nat, wanted: int)
    requires reserved <= WholeUnits(hundredths)
    ensures SysInv(System(Shop(hundredths, reserved, wanted), map[]))
    ensures Guarded(System(Shop(hundredths, reserved, wanted), map[]))
  {
    var db := Shop(hundredths, reserved, wanted);
    forall s: StoreId, p: ProductId ensures Reserved(db.reservations, s, p, db.now) <= Max(0, OnHand(db, s, p)) {
      ShopReserves(hundredths, reserved, wanted, s, p, db.now);
    }
  }

  lemma ShopLeavesRoom(hundredths: nat, reserved: nat, wanted: int)
    requires hundredths % 100 >= 50 && wanted == WholeUnits(hundredths) - reserved >= 1
    ensures
      var db := Shop(hundredths, reserved, wanted);
      WithinExactStock(db, 0, 0) && OnHandHundredths(db, 0, 0) == hundredths
      && wanted + Reserved(db.reservations, 0, 0, db.now) == OnHand(db, 0, 0)
      && FindOrder(db.orders, 0, "k").None? && (reserved == 0 ==> db.reservations == [])
  {
    ShopReserves(hundredths, reserved, wanted, 0, 0, 0);
  }

  // One checkout of all units that the rounded figure leaves, of a stock with nothing or with
  // anything reserved before, oversells it. A cart line holds at most 999 units.
  lemma ShopOversells(hundredths: nat, reserved: nat, req: Request, w: World)
    requires hundredths % 100 >= 50 && 1 <= WholeUnits(hundredths) - reserved <= 999 && Picks(req, w)
    ensures
      var db := Shop(hundredths, reserved, WholeUnits(hundredths) - reserved);
      WithinExactStock(db, 0, 0) && OnHandHundredths(db, 0, 0) == hundredths && (reserved == 0 ==> db.reservations == [])
      && CallOversells(db, req, w, 0, 0)
  {
    var wanted := WholeUnits(hundredths) - reserved;
    var db := Shop(hundredths, reserved, wanted);
    ShopLeavesRoom(hundredths, reserved, wanted);
    ShopIsOrderable(db, req, w, wanted);
    assert QuantityOf(CartRows(db, req), 0) == wanted by {
      ShopRows(db, req, wanted);
      OneLine(wanted);
    }
    LastUnitOversells(db, req, w, 0, 0);
  }

  // No run whose checkouts read distinct products, that starts within the exact stock and ends
  // with a stock of h hundredths, leaves it.
  ghost predicate StaysWithin(hundredths: nat) {
    forall sys: System, actions: seq<Action>, s: StoreId, p: ProductId ::
      SysInv(sys) && Guarded(sys) && WithinExactStock(sys.db, s, p)
      && EndsAt(sys, actions, s, p, hundredths) && ReadsOnly(sys, actions, Harmless) ==>
        WithinExactStock(Run(sys, actions).value.db, s, p)
  }

  ghost predicate EndsAt(sys: System, actions: seq<Action>, s: StoreId, p: ProductId, hundredths: nat)
    requires Legal(sys)
  {
    Run(sys, actions).Some? && OnHandHundredths(Run(sys, actions).value.db, s, p) == hundredths
  }

  // Reservations stay within an exact stock, over all runs of the system, if and only if the
  // stock's fraction of a unit is below one half.
  lemma StaysWithinIff(hundredths: nat)
    ensures StaysWithin(hundredths) <==> hundredths % 100 < 50
  {
    if hundredths % 100 < 50 {
      forall sys: System, actions: seq<Action>, s: StoreId, p: ProductId
        | SysInv(sys) && Guarded(sys) && WithinExactStock(sys.db, s, p)
          && EndsAt(sys, actions, s, p, hundredths) && ReadsOnly(sys, actions, Harmless)
        ensures WithinExactStock(Run(sys, actions).value.db, s, p)
      {
        NeverOversold(sys, actions, s, p);
      }
    } else {
      var sys, actions := OversellingRun(hundredths, PICKUP, OPEN_STORE);
      assert SysInv(sys) && Guarded(sys) && WithinExactStock(sys.db, 0, 0)
        && EndsAt(sys, actions, 0, 0, hundredths) && ReadsOnly(sys, actions, Harmless);
    }
  }

  lemma OversellingRun(hundredths: nat, req: Request, w: World) returns (sys: System, actions: seq<Action>)
    requires hundredths % 100 >= 50 && Picks(req, w)
    ensures SysInv(sys) && Guarded(sys) && WithinExactStock(sys.db, 0, 0)
    ensures EndsAt(sys, actions, 0, 0, hundredths) && ReadsOnly(sys, actions, Harmless)
    ensures !WithinExactStock(Run(sys, actions).value.db, 0, 0)
  {
    var reserved := WholeUnits(hundredths) - 1;
    var db := Shop(hundredths, reserved, 1);
    ShopOversells(hundredths, reserved, req, w);
    ShopIsSound(hundredths, reserved, 1);
    CallIsARun(db, Checkout(req), w);
    OneLine(1);
    CallReads(db, req, w, Harmless);
    sys := System(db, map[]);
    actions := [Begin(0, Checkout(req))] + Script(db, Started(db, Checkout(req)), w);
  }

  /******* Releasing more than was taken *******/

  // A cart with a reservation of its own, as the reservation service makes them.
  function CartWithReservation(held: nat, wanted: int): Db {
    Db(0, map[(0, 0) := 100 * (held + wanted)], map[0 := Cart(0, 0, Active, [Line(0, wanted)])], [],
       [Reservation(None, Some(0), 0, 0, held, RESERVATION_MS, Held)], [])
  }

  lemma {:induction false} AloneCancels(db: Db, order: nat, customer: CustomerId, w: World)
    requires order < |db.orders| && db.orders[order].customer == customer && Cancellable(db.orders[order].status)
    ensures RunAlone(db, Started(db, Cancellation(order, customer)), w) == (CancelOrder(db, order), CancelDone)
  {
    var tx := Started(db, Cancellation(order, customer));
    AloneStep(db, tx, db, tx.(pc := OrderHeld), w);
    AloneStep(db, tx.(pc := OrderHeld), CancelOrder(db, order), tx.(pc := Finished(CancelDone)), w);
  }

  // Ordering such a cart and cancelling the order leaves fewer units reserved than before, by
  // exactly those the cart held.
  lemma CancelReleasesTheCartToo(held: nat, wanted: int, req: Request, w: World)
    requires held > 0 && 1 <= wanted <= 999 && Picks(req, w)
    ensures
      var db := CartWithReservation(held, wanted);
      var ordered := RunAlone(db, Started(db, Checkout(req)), w);
      var cancelled := RunAlone(ordered.0, Started(ordered.0, Cancellation(0, 0)), w);
      ordered.1 == Created(0) && cancelled.1 == CancelDone
      && Reserved(db.reservations, 0, 0, db.now) == held
      && Reserved(ordered.0.reservations, 0, 0, db.now) == held + wanted
      && Reserved(cancelled.0.reservations, 0, 0, db.now) == 0
  {
    var db := CartWithReservation(held, wanted);
    assert db.reservations[..0] == [];
    assert OnHand(db, 0, 0) == held + wanted;
    ShopRows(db, req, wanted);
    ShopIsOrderable(db, req, w, wanted);
    CreatesIffOrderable(db, req, w);
    var order := OrderOf(db, req, w);
    var ordered := CommitOrder(db, order, db.now);
    OneLine(wanted);
    ReservedByCommit(db.reservations, 0, 0, order.items, db.now, 0, 0, db.now);
    AloneCancels(ordered, 0, 0, w);
    AllReleased(ordered.reservations, 0, Some(0));
  }

  lemma {:induction false} AllReleased(rs: seq<Reservation>, order: nat, cart: Option<CartId>)
    requires forall i :: 0 <= i < |rs| ==> ReleasedBy(rs[i], order, cart)
    ensures forall s, p, at :: Reserved(Release(rs, order, cart), s, p, at) == 0
  {
    if rs != [] {
      var n := |rs| - 1;
      AllReleased(rs[..n], order, cart);
      assert Release(rs, order, cart)[..n] == Release(rs[..n], order, cart);
    }
  }
}
