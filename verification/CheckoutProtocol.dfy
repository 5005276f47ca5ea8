// Checkout and cancellation as a step relation: any number of transactions in flight, each
// advanced one statement at a time, interleaved with everything else that changes the tables.
module CheckoutProtocol {
  import opened Basics
  import opened Identifiers
  import opened CartValidation
  import opened CheckoutPricing
  import opened ShopDb

  type TxId = nat

  datatype Request = Request(
    customer: CustomerId,
    storeHint: StoreId,
    cart: CartId,
    key: string,
    address: Option<AddressId>,
    deliveryType: DeliveryType,
    name: string,
    phone: string,
    shippingAddress: Option<string>,
    municipality: Option<int>,
    ward: Option<int>,
    postalCode: Option<string>,
    country: Option<string>,
    notes: Option<string>)

  /******* The fingerprint *******/

  // WhiteSpace and LineTerminator, sections 12.2 and 12.3 of ECMA-262.
  predicate IsSpace(c: char) {
    var n := c as int;
    0x09 <= n <= 0x0D || n == 0x20 || n == 0xA0 || n == 0x1680 || 0x2000 <= n <= 0x200A
    || n == 0x2028 || n == 0x2029 || n == 0x202F || n == 0x205F || n == 0x3000 || n == 0xFEFF
  }

  function Trim(s: string): string {
    if s != [] && IsSpace(s[0]) then Trim(s[1..])
    else if s != [] && IsSpace(s[|s| - 1]) then Trim(s[..|s| - 1])
    else s
  }

  // x?.trim() || null
  function TrimOrNull(s: Option<string>): Option<string> {
    if s.Some? && Trim(s.value) != "" then Some(Trim(s.value)) else None
  }

  // x || null
  function TextOrNull(s: Option<string>): Option<string> {
    if s == Some("") then None else s
  }

  function NumberOrNull(n: Option<int>): Option<int> {
    if n == Some(0) then None else n
  }

  function FingerprintOf(req: Request, rows: seq<Line>): Fingerprint {
    Fingerprint(
      req.customer, req.cart, rows, req.address, req.deliveryType, Trim(req.name), Trim(req.phone),
      TrimOrNull(req.shippingAddress), NumberOrNull(req.municipality), NumberOrNull(req.ward),
      TrimOrNull(req.postalCode), TextOrNull(req.country), TrimOrNull(req.notes))
  }

  /******* ORDER BY product_id *******/

  predicate Sorted(lines: seq<Line>) {
    forall i, j :: 0 <= i < j < |lines| ==> lines[i].product <= lines[j].product
  }

  predicate StrictlySorted(lines: seq<Line>) {
    forall i, j :: 0 <= i < j < |lines| ==> lines[i].product < lines[j].product
  }

  function Insert(line: Line, lines: seq<Line>): (out: seq<Line>)
    ensures multiset(out) == multiset(lines) + multiset{line}
  {
    if lines == [] || line.product <= lines[0].product then [line] + lines
    else
      assert lines == [lines[0]] + lines[1..];
      [lines[0]] + Insert(line, lines[1..])
  }

  function SortByProduct(lines: seq<Line>): (out: seq<Line>)
    ensures multiset(out) == multiset(lines)
    ensures |out| == |lines|
  {
    if lines == [] then []
    else
      assert lines == [lines[0]] + lines[1..];
      var out := Insert(lines[0], SortByProduct(lines[1..]));
      assert |multiset(out)| == |multiset(lines)|;
      out
  }

  lemma InsertedFrom(line: Line, lines: seq<Line>, j: nat)
    requires j < |Insert(line, lines)|
    ensures Insert(line, lines)[j] == line || Insert(line, lines)[j] in lines
  {
    assert Insert(line, lines)[j] in multiset(Insert(line, lines));
  }

  lemma {:induction false} InsertSorted(line: Line, lines: seq<Line>)
    requires Sorted(lines)
    ensures Sorted(Insert(line, lines))
  {
    var out := Insert(line, lines);
    if lines != [] && line.product > lines[0].product {
      var rest := Insert(line, lines[1..]);
      InsertSorted(line, lines[1..]);
      forall j | 0 <= j < |rest| ensures lines[0].product <= rest[j].product {
        InsertedFrom(line, lines[1..], j);
      }
    }
  }

  lemma {:induction false} SortByProductSorts(lines: seq<Line>)
    ensures Sorted(SortByProduct(lines))
    ensures DistinctProducts(lines) ==> StrictlySorted(SortByProduct(lines))
  {
    if lines != [] {
      var rest := lines[1..];
      SortByProductSorts(rest);
      InsertSorted(lines[0], SortByProduct(rest));
      if DistinctProducts(lines) {
        forall i | 0 <= i < |SortByProduct(rest)| ensures SortByProduct(rest)[i].product != lines[0].product {
          assert SortByProduct(rest)[i] in multiset(SortByProduct(rest));
          assert SortByProduct(rest)[i] in rest;
        }
        InsertStrict(lines[0], SortByProduct(rest));
      }
    }
  }

  lemma {:induction false} SortedIsKept(lines: seq<Line>)
    requires Sorted(lines)
    ensures SortByProduct(lines) == lines
  {
    if lines != [] {
      SortedIsKept(lines[1..]);
    }
  }

  lemma PrependStrict(line: Line, lines: seq<Line>)
    requires StrictlySorted(lines) && forall j :: 0 <= j < |lines| ==> line.product < lines[j].product
    ensures StrictlySorted([line] + lines)
  {
  }

  lemma {:induction false} InsertStrict(line: Line, lines: seq<Line>)
    requires StrictlySorted(lines)
    requires forall i :: 0 <= i < |lines| ==> lines[i].product != line.product
    ensures StrictlySorted(Insert(line, lines))
  {
    if lines != [] && line.product > lines[0].product {
      var rest := Insert(line, lines[1..]);
      InsertStrict(line, lines[1..]);
      forall j | 0 <= j < |rest| ensures lines[0].product < rest[j].product {
        InsertedFrom(line, lines[1..], j);
      }
      PrependStrict(lines[0], rest);
    } else {
      PrependStrict(line, lines);
    }
  }

  /******* Transactions *******/

  datatype Refusal =
    | AddressRequired
    | AddressIncomplete
    | WardMismatch
    | OutsideDeliveryAreas
    | NoOpenStore
    | StoreClosed
    | CartUnavailable
    | EmptyCart
    | Item(error: ItemError)
    | NotServiceable
    | NepalAddressRequired
    | NoStreet
    | DuplicateRow
    | NotCancellable

  datatype Outcome =
    | Created(order: nat)
    | Replayed(order: nat)
    | Conflict
    | Refused(reason: Refusal)
    | CancelDone
    | Aborted

  datatype Job =
    | Checkout(req: Request)
    | Cancellation(order: nat, customer: CustomerId)

  // Where a transaction stands: what it has locked and what it has read so far.
  datatype Pc =
    | Begun
    | KeyHeld
    | Fingerprinted(fp: Fingerprint)
    | NewRequest(fp: Fingerprint)
    | StoreChosen(fp: Fingerprint, store: StoreId)
    | CartHeld(fp: Fingerprint, store: StoreId)
    | LockingProducts(fp: Fingerprint, store: StoreId, lines: seq<Line>, held: nat)
    | PricesRead(fp: Fingerprint, store: StoreId, lines: seq<Line>, products: map<ProductId, ProductRow>)
    | Checked(fp: Fingerprint, store: StoreId, lines: seq<Line>, subtotal: int)
    | Charged(fp: Fingerprint, store: StoreId, lines: seq<Line>, subtotal: int, fee: real)
    | Violated(fp: Fingerprint)
    | OrderHeld
    | Finished(outcome: Outcome)

  // now() is the time the transaction began, for every statement of the transaction.
  datatype Tx = Tx(job: Job, start: int, pc: Pc)

  datatype Lock =
    | KeyLock(customer: CustomerId, key: string)
    | CartLock(cart: CartId)
    | ProductLock(store: StoreId, product: ProductId)
    | OrderLock(order: nat)

  function ProductLocks(store: StoreId, lines: seq<Line>, n: nat): set<Lock>
    requires n <= |lines|
  {
    set i | 0 <= i < n :: ProductLock(store, lines[i].product)
  }

  predicate HasLines(pc: Pc) {
    pc.LockingProducts? || pc.PricesRead? || pc.Checked? || pc.Charged?
  }

  predicate HasCart(pc: Pc) {
    pc.CartHeld? || HasLines(pc)
  }

  predicate WellFormed(tx: Tx) {
    (tx.pc.LockingProducts? ==> tx.pc.held <= |tx.pc.lines|)
    && (tx.pc.OrderHeld? ==> tx.job.Cancellation?)
    && (tx.job.Cancellation? ==> tx.pc.Begun? || tx.pc.OrderHeld? || tx.pc.Finished?)
  }

  function HeldBy(tx: Tx): set<Lock>
    requires WellFormed(tx)
  {
    match tx.job
    case Cancellation(order, customer) => if tx.pc.OrderHeld? then {OrderLock(order)} else {}
    case Checkout(req) =>
      var key := KeyLock(req.customer, req.key);
      match tx.pc
      case Begun => {}
      case Violated(_) => {}
      case Finished(_) => {}
      case OrderHeld => {}
      case KeyHeld => {key}
      case Fingerprinted(_) => {key}
      case NewRequest(_) => {key}
      case StoreChosen(_, _) => {key}
      case CartHeld(_, _) => {key, CartLock(req.cart)}
      case LockingProducts(_, store, lines, held) => {key, CartLock(req.cart)} + ProductLocks(store, lines, held)
      case PricesRead(_, store, lines, _) => {key, CartLock(req.cart)} + ProductLocks(store, lines, |lines|)
      case Checked(_, store, lines, _) => {key, CartLock(req.cart)} + ProductLocks(store, lines, |lines|)
      case Charged(_, store, lines, _, _) => {key, CartLock(req.cart)} + ProductLocks(store, lines, |lines|)
  }

  // What the world answers at a step: the delivery services, the price tables, or a failure.
  datatype Input =
    | Proceed
    | Assign(assignment: Result<StoreId, Refusal>)
    | Catalogue(products: map<ProductId, ProductRow>)
    | Quote(charge: Result<real, Refusal>)
    | UniqueViolation
    | Fail

  function CartRows(db: Db, req: Request): seq<Line> {
    if req.cart in db.carts && db.carts[req.cart].customer == req.customer
    then SortByProduct(db.carts[req.cart].items)
    else []
  }

  // SELECT product_id, quantity FROM cart_items WHERE cart_id = .. ORDER BY product_id
  function HeldRows(db: Db, req: Request): seq<Line> {
    if req.cart in db.carts then SortByProduct(db.carts[req.cart].items) else []
  }

  predicate CartAvailable(db: Db, req: Request, store: StoreId) {
    req.cart in db.carts
    && var cart := db.carts[req.cart];
    cart.customer == req.customer && cart.store == store && cart.status == Active
  }

  function StockRows(db: Db, store: StoreId, lines: seq<Line>, start: int): map<ProductId, StockRow> {
    var ids := set i | 0 <= i < |lines| :: lines[i].product;
    map p | p in ids :: StockRow(OnHand(db, store, p), Reserved(db.reservations, store, p, start))
  }

  function NewOrder(req: Request, pc: Pc): Order
    requires pc.Charged?
  {
    Order(req.customer, pc.store, Some(req.cart), req.key, pc.fp, PendingPayment, pc.lines,
          pc.subtotal, pc.fee, pc.subtotal as real / 100.0 + pc.fee)
  }

  // Looking the order up by key, inside the transaction or after its rollback.
  function Stored(db: Db, req: Request, fp: Fingerprint): Option<Outcome> {
    match FindOrder(db.orders, req.customer, req.key)
    case None => None
    case Some(i) => Some(if db.orders[i].fingerprint == fp then Replayed(i) else Conflict)
  }

  // One statement of one transaction. None when the transaction does not take that input.
  function TxNext(db: Db, tx: Tx, input: Input): Option<(Db, Tx)> {
    if tx.pc.Finished? then None
    else if input == Fail then Some((db, tx.(pc := Finished(Aborted))))
    else
      match tx.job
      case Cancellation(order, customer) => CancelNext(db, tx, order, customer, input)
      case Checkout(req) => CheckoutNext(db, tx, req, input)
  }

  function CancelNext(db: Db, tx: Tx, order: nat, customer: CustomerId, input: Input): Option<(Db, Tx)> {
    match (tx.pc, input)
    case (Begun, Proceed) =>
      if order < |db.orders| && db.orders[order].customer == customer
      then Some((db, tx.(pc := OrderHeld)))
      else Some((db, tx.(pc := Finished(Refused(NotCancellable)))))
    case (OrderHeld, Proceed) =>
      if order < |db.orders| && Cancellable(db.orders[order].status)
      then Some((CancelOrder(db, order), tx.(pc := Finished(CancelDone))))
      else Some((db, tx.(pc := Finished(Refused(NotCancellable)))))
    case _ => None
  }

  function CheckoutNext(db: Db, tx: Tx, req: Request, input: Input): Option<(Db, Tx)> {
    match (tx.pc, input)
    case (Begun, Proceed) => Some((db, tx.(pc := KeyHeld)))
    case (KeyHeld, Proceed) => Some((db, tx.(pc := Fingerprinted(FingerprintOf(req, CartRows(db, req))))))
    case (Fingerprinted(fp), Proceed) =>
      (match Stored(db, req, fp)
       case Some(outcome) => Some((db, tx.(pc := Finished(outcome))))
       case None => Some((db, tx.(pc := NewRequest(fp)))))
    case (NewRequest(fp), Assign(result)) =>
      (match result
       case Ok(store) => Some((db, tx.(pc := StoreChosen(fp, store))))
       case Err(e) => Some((db, tx.(pc := Finished(Refused(e))))))
    case (StoreChosen(fp, store), Proceed) =>
      if CartAvailable(db, req, store) then Some((db, tx.(pc := CartHeld(fp, store))))
      else Some((db, tx.(pc := Finished(Refused(CartUnavailable)))))
    case (CartHeld(fp, store), Proceed) =>
      var lines := HeldRows(db, req);
      if lines == [] then Some((db, tx.(pc := Finished(Refused(EmptyCart)))))
      else Some((db, tx.(pc := LockingProducts(fp, store, lines, 0))))
    case (LockingProducts(fp, store, lines, held), Proceed) =>
      if held < |lines| then Some((db, tx.(pc := LockingProducts(fp, store, lines, held + 1)))) else None
    case (LockingProducts(fp, store, lines, held), Catalogue(products)) =>
      if held == |lines| then Some((db, tx.(pc := PricesRead(fp, store, lines, products)))) else None
    case (PricesRead(fp, store, lines, products), Proceed) =>
      var view := StoreView(products, StockRows(db, store, lines, tx.start));
      (match ItemCheck(CheckoutLines(lines, view))
       case Ok(subtotal) => Some((db, tx.(pc := Checked(fp, store, lines, subtotal))))
       case Err(e) => Some((db, tx.(pc := Finished(Refused(Item(e)))))))
    case (Checked(fp, store, lines, subtotal), Quote(result)) =>
      (match result
       case Ok(fee) => Some((db, tx.(pc := Charged(fp, store, lines, subtotal, fee))))
       case Err(e) => Some((db, tx.(pc := Finished(Refused(e))))))
    case (Charged(fp, store, lines, subtotal, fee), Proceed) =>
      if req.cart in db.carts
      then Some((CommitOrder(db, NewOrder(req, tx.pc), tx.start), tx.(pc := Finished(Created(|db.orders|)))))
      else None
    case (Charged(fp, store, lines, subtotal, fee), UniqueViolation) => Some((db, tx.(pc := Violated(fp))))
    case (Violated(fp), Proceed) =>
      (match Stored(db, req, fp)
       case Some(outcome) => Some((db, tx.(pc := Finished(outcome))))
       case None => Some((db, tx.(pc := Finished(Refused(DuplicateRow))))))
    case _ => None
  }

  /******* The whole system *******/

  datatype System = System(db: Db, txs: map<TxId, Tx>)

  datatype Action =
    | Begin(t: TxId, job: Job)
    | Advance(t: TxId, input: Input)
    | AddStock(store: StoreId, product: ProductId, hundredths: nat)
    | Wait(ms: nat)
    | OpenCart(id: CartId, customer: CustomerId, store: StoreId)
    | EditCart(id: CartId, items: seq<Line>)   // any rows: adds of a product may race

  predicate LocksFree(sys: System, t: TxId, wanted: set<Lock>)
    requires forall u :: u in sys.txs ==> WellFormed(sys.txs[u])
  {
    forall u :: u in sys.txs && u != t ==> HeldBy(sys.txs[u]) !! wanted
  }

  predicate Legal(sys: System) {
    forall u :: u in sys.txs ==> WellFormed(sys.txs[u])
  }

  // One action of the system. None when the action is not possible, in particular when a
  // statement has to wait for a lock that another transaction holds.
  function Next(sys: System, a: Action): Option<System>
    requires Legal(sys)
  {
    var db := sys.db;
    match a
    case Begin(t, job) =>
      if t in sys.txs then None else Some(sys.(txs := sys.txs[t := Tx(job, db.now, Begun)]))
    case Advance(t, input) =>
      if t !in sys.txs then None
      else
        var tx := sys.txs[t];
        (match TxNext(db, tx, input)
         case None => None
         case Some((db', tx')) =>
           StepKeepsForm(db, tx, input);
           if LocksFree(sys, t, HeldBy(tx') - HeldBy(tx)) then Some(System(db', sys.txs[t := tx'])) else None)
    case AddStock(store, product, hundredths) =>
      Some(sys.(db := db.(stock := db.stock[(store, product) := OnHandHundredths(db, store, product) + hundredths])))
    case Wait(ms) => Some(sys.(db := db.(now := db.now + ms)))
    case OpenCart(id, customer, store) =>
      if id in db.carts then None
      else Some(sys.(db := db.(carts := db.carts[id := Cart(customer, store, Active, [])])))
    case EditCart(id, items) =>
      if id in db.carts
      then Some(sys.(db := db.(carts := db.carts[id := db.carts[id].(items := items)])))
      else None
  }

  lemma StepKeepsForm(db: Db, tx: Tx, input: Input)
    requires WellFormed(tx) && TxNext(db, tx, input).Some?
    ensures WellFormed(TxNext(db, tx, input).value.1)
  {
  }

  lemma StepKeepsJob(db: Db, tx: Tx, input: Input)
    requires TxNext(db, tx, input).Some?
    ensures var tx' := TxNext(db, tx, input).value.1; tx' == tx.(pc := tx'.pc)
  {
  }

  /******* Every statement brings its transaction closer to its end *******/

  function Phase(pc: Pc): nat {
    match pc
    case Begun => 11
    case KeyHeld => 10
    case Fingerprinted(_) => 9
    case NewRequest(_) => 8
    case StoreChosen(_, _) => 7
    case CartHeld(_, _) => 6
    case LockingProducts(_, _, _, _) => 5
    case PricesRead(_, _, _, _) => 4
    case Checked(_, _, _, _) => 3
    case Charged(_, _, _, _, _) => 2
    case Violated(_) => 1
    case OrderHeld => 1
    case Finished(_) => 0
  }

  predicate ReadsCartLater(pc: Pc) {
    Phase(pc) >= 6
  }

  function LocksToGo(pc: Pc): nat {
    if pc.LockingProducts? && pc.held <= |pc.lines| then |pc.lines| - pc.held else 0
  }

  // Statements that a transaction has still to take, at the most: before it reads its cart, one
  // lock for each row that the cart has now.
  function Budget(db: Db, tx: Tx): nat {
    match tx.job
    case Cancellation(_, _) => Phase(tx.pc)
    case Checkout(req) =>
      Phase(tx.pc) + if ReadsCartLater(tx.pc) then |HeldRows(db, req)| else LocksToGo(tx.pc)
  }

  // A statement ends its phase, or takes a lock; only the read of the held cart brings locks to take.
  predicate MovesOn(db: Db, tx: Tx, db': Db, tx': Tx) {
    (db' == db || tx'.pc.Finished?) && tx'.job == tx.job
    && (Phase(tx'.pc) < Phase(tx.pc) || (Phase(tx'.pc) == Phase(tx.pc) == 5 && LocksToGo(tx'.pc) < LocksToGo(tx.pc)))
    && (tx'.pc.LockingProducts? && !tx.pc.LockingProducts? ==>
          tx.pc.CartHeld? && tx.job.Checkout? && LocksToGo(tx'.pc) == |HeldRows(db, tx.job.req)|)
  }

  predicate NextMovesOn(db: Db, tx: Tx, input: Input) {
    var next := TxNext(db, tx, input);
    next.Some? ==> MovesOn(db, tx, next.value.0, next.value.1)
  }

  lemma CancelMovesOn(db: Db, tx: Tx, input: Input)
    requires WellFormed(tx) && tx.job.Cancellation?
    ensures NextMovesOn(db, tx, input)
  {
  }

  lemma EarlyMovesOn(db: Db, tx: Tx, input: Input)
    requires WellFormed(tx) && tx.job.Checkout? && ReadsCartLater(tx.pc)
    ensures NextMovesOn(db, tx, input)
  {
  }

  function CheckedItems(db: Db, tx: Tx): Result<int, ItemError>
    requires tx.pc.PricesRead?
  {
    ItemCheck(CheckoutLines(tx.pc.lines, StoreView(tx.pc.products, StockRows(db, tx.pc.store, tx.pc.lines, tx.start))))
  }

  // Where the item check leads.
  function AfterCheck(tx: Tx, checked: Result<int, ItemError>): (pc: Pc)
    requires tx.pc.PricesRead?
    ensures Phase(pc) < Phase(tx.pc) && !pc.LockingProducts?
  {
    if checked.Ok? then Checked(tx.pc.fp, tx.pc.store, tx.pc.lines, checked.value) else Finished(Refused(Item(checked.error)))
  }

  lemma PricingNext(db: Db, tx: Tx)
    requires tx.job.Checkout? && tx.pc.PricesRead?
    ensures TxNext(db, tx, Proceed) == Some((db, tx.(pc := AfterCheck(tx, CheckedItems(db, tx)))))
  {
  }

  lemma PricingOtherwise(db: Db, tx: Tx, input: Input)
    requires tx.job.Checkout? && tx.pc.PricesRead? && input != Proceed
    ensures TxNext(db, tx, input) == if input == Fail then Some((db, tx.(pc := Finished(Aborted)))) else None
  {
  }

  lemma LowerPhaseMovesOn(db: Db, tx: Tx, pc: Pc)
    requires Phase(pc) < Phase(tx.pc) && !pc.LockingProducts?
    ensures MovesOn(db, tx, db, tx.(pc := pc))
  {
  }

  lemma PricingMovesOn(db: Db, tx: Tx, input: Input)
    requires WellFormed(tx) && tx.job.Checkout? && tx.pc.PricesRead?
    ensures NextMovesOn(db, tx, input)
  {
    if input == Proceed {
      PricingNext(db, tx);
      LowerPhaseMovesOn(db, tx, AfterCheck(tx, CheckedItems(db, tx)));
    } else {
      PricingOtherwise(db, tx, input);
      LowerPhaseMovesOn(db, tx, Finished(Aborted));
    }
  }

  lemma LookupMovesOn(db: Db, tx: Tx, input: Input)
    requires WellFormed(tx) && tx.job.Checkout? && (tx.pc.Charged? || tx.pc.Violated?)
    ensures NextMovesOn(db, tx, input)
  {
  }

  lemma LateMovesOn(db: Db, tx: Tx, input: Input)
    requires WellFormed(tx) && tx.job.Checkout? && !ReadsCartLater(tx.pc)
    requires !tx.pc.PricesRead? && !tx.pc.Charged? && !tx.pc.Violated?
    ensures NextMovesOn(db, tx, input)
  {
  }

  lemma MovingOnSpends(db: Db, tx: Tx, db': Db, tx': Tx)
    requires WellFormed(tx) && WellFormed(tx') && MovesOn(db, tx, db', tx')
    ensures Budget(db', tx') < Budget(db, tx)
  {
  }

  lemma StepMovesOn(db: Db, tx: Tx, input: Input)
    requires WellFormed(tx)
    ensures NextMovesOn(db, tx, input)
  {
    if tx.job.Cancellation? {
      CancelMovesOn(db, tx, input);
    } else if ReadsCartLater(tx.pc) {
      EarlyMovesOn(db, tx, input);
    } else if tx.pc.PricesRead? {
      PricingMovesOn(db, tx, input);
    } else if tx.pc.Charged? || tx.pc.Violated? {
      LookupMovesOn(db, tx, input);
    } else {
      LateMovesOn(db, tx, input);
    }
  }

  lemma StepSpends(db: Db, tx: Tx, input: Input)
    requires WellFormed(tx) && TxNext(db, tx, input).Some?
    ensures Budget(TxNext(db, tx, input).value.0, TxNext(db, tx, input).value.1) < Budget(db, tx)
  {
    StepKeepsForm(db, tx, input);
    StepMovesOn(db, tx, input);
    MovingOnSpends(db, tx, TxNext(db, tx, input).value.0, TxNext(db, tx, input).value.1);
  }

  /******* Runs *******/

  lemma NextKeepsLegal(sys: System, a: Action)
    requires Legal(sys) && Next(sys, a).Some?
    ensures Legal(Next(sys, a).value)
  {
    if a.Advance? {
      StepKeepsForm(sys.db, sys.txs[a.t], a.input);
    }
  }

  // Every action in turn; None as soon as one of them is not possible.
  function Run(sys: System, actions: seq<Action>): Option<System>
    requires Legal(sys)
    decreases |actions|
  {
    if actions == [] then Some(sys)
    else
      match Next(sys, actions[0])
      case None => None
      case Some(next) =>
        NextKeepsLegal(sys, actions[0]);
        Run(next, actions[1..])
  }

  lemma RunStep(sys: System, a: Action, next: System, rest: seq<Action>)
    requires Legal(sys) && Next(sys, a) == Some(next)
    ensures Legal(next) && Run(sys, [a] + rest) == Run(next, rest)
  {
    NextKeepsLegal(sys, a);
    assert ([a] + rest)[1..] == rest;
  }
}
