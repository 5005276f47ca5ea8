// The advisory cart validation and the line classification it shares with checkout.
module CartValidation {
  import opened Basics
  import opened Identifiers

  // A quantity as the request carries it: a whole number, or any other number.
  datatype Quantity = Whole(n: int) | NotWhole

  datatype RequestedItem = RequestedItem(product: ProductId, quantity: Quantity, clientPrice: Option<real>)

  datatype PublicationStatus = Published | Unpublished

  // What the product and price lookups return for one requested product: no status when the
  // product does not exist, no price when no price row is in force.
  datatype ProductRow = ProductRow(status: Option<PublicationStatus>, price: Option<real>)

  datatype StockRow = StockRow(stock: int, reserved: int)

  datatype StoreView = StoreView(products: map<ProductId, ProductRow>, stocks: map<ProductId, StockRow>)

  datatype IssueCode =
    | ProductUnavailable
    | ProductInactive
    | InvalidQuantity
    | OutOfStock
    | InsufficientStock
    | PriceChanged
    | AddressNotFound
    | AddressUnserviceable

  datatype LineStatus = Valid | ChangesRequired | Blocked

  datatype CanonicalLine = CanonicalLine(
    product: ProductId,
    quantity: int,
    authoritativePrice: real,
    requestedQuantity: Quantity,
    currentPrice: Option<real>,
    lineTotal: real,
    available: int,
    status: LineStatus,
    issues: seq<IssueCode>)

  datatype Failure = CartEmpty

  // Rounds a rupee amount to paisa, halves upwards.
  function RoundPaisa(price: real): (paisa: int)
    ensures -0.5 < paisa as real - price * 100.0 <= 0.5
  {
    (price * 100.0 + 0.5).Floor
  }

  function ProductOf(view: StoreView, p: ProductId): ProductRow {
    if p in view.products then view.products[p] else ProductRow(None, None)
  }

  function AvailableIn(view: StoreView, p: ProductId): int {
    if p in view.stocks then Max(0, view.stocks[p].stock - view.stocks[p].reserved) else 0
  }

  predicate Priced(row: ProductRow) {
    row.price.Some? && row.price.value > 0.0
  }

  predicate QuantityInRange(q: Quantity) {
    q.Whole? && 1 <= q.n <= 999
  }

  // The product can be sold in this store at some quantity.
  predicate Sellable(item: RequestedItem, view: StoreView) {
    var row := ProductOf(view, item.product);
    row.status == Some(Published) && QuantityInRange(item.quantity) && Priced(row)
    && AvailableIn(view, item.product) > 0
  }

  predicate PriceDiffers(item: RequestedItem, view: StoreView) {
    var row := ProductOf(view, item.product);
    Priced(row) && item.clientPrice.Some? && RoundPaisa(item.clientPrice.value) != RoundPaisa(row.price.value)
  }

  // The one issue about the product, its quantity or its stock, in the order they are looked for.
  function StockIssue(item: RequestedItem, view: StoreView): Option<IssueCode> {
    var row := ProductOf(view, item.product);
    if row.status.None? then Some(ProductUnavailable)
    else if row.status != Some(Published) then Some(ProductInactive)
    else if !QuantityInRange(item.quantity) then Some(InvalidQuantity)
    else if !Priced(row) then Some(ProductUnavailable)
    else if AvailableIn(view, item.product) <= 0 then Some(OutOfStock)
    else if item.quantity.n > AvailableIn(view, item.product) then Some(InsufficientStock)
    else None
  }

  // The classified line. It is blocked when the product cannot be sold here at any quantity,
  // valid when the request can be met as it stands, and otherwise in need of a change.
  function Canonical(item: RequestedItem, view: StoreView): (line: CanonicalLine)
    ensures line.status == Blocked <==> !Sellable(item, view)
    ensures line.status == Valid <==>
              Sellable(item, view) && item.quantity.n <= line.available && !PriceDiffers(item, view)
    ensures line.status == Blocked ==> line.quantity == 0
    ensures line.status != Blocked ==> line.quantity == Min(item.quantity.n, line.available)
    ensures line.status == Valid <==> line.issues == []
  {
    var issue := StockIssue(item, view);
    var available := AvailableIn(view, item.product);
    var row := ProductOf(view, item.product);
    var quantity :=
      if issue == None then item.quantity.n
      else if issue == Some(InsufficientStock) then available
      else 0;
    var status :=
      if issue == Some(InsufficientStock) then ChangesRequired
      else if issue != None then Blocked
      else if PriceDiffers(item, view) then ChangesRequired
      else Valid;
    CanonicalLine(
      item.product,
      quantity,
      if Priced(row) then row.price.value else 0.0,
      item.quantity,
      if Priced(row) then row.price else None,
      if Priced(row) then (RoundPaisa(row.price.value) * quantity) as real / 100.0 else 0.0,
      available,
      status,
      (if issue == None then [] else [issue.value]) + (if PriceDiffers(item, view) then [PriceChanged] else []))
  }

  // The price of a line is its product's, if that has one and it is positive; its total is the
  // rounded price times the validated quantity.
  lemma PriceIsTheRows(item: RequestedItem, view: StoreView)
    ensures
      var line := Canonical(item, view);
      if item.product in view.products && view.products[item.product].price.Some?
         && view.products[item.product].price.value > 0.0
      then
        var price := view.products[item.product].price.value;
        line.authoritativePrice == price && line.currentPrice == Some(price)
        && line.lineTotal * 100.0 == (RoundPaisa(price) * line.quantity) as real
      else line.authoritativePrice == 0.0 && line.currentPrice == None && line.lineTotal == 0.0
  {
  }

  function CanonicalAll(items: seq<RequestedItem>, view: StoreView): (lines: seq<CanonicalLine>) {
    seq(|items|, i requires 0 <= i < |items| => Canonical(items[i], view))
  }

  // Classifies one line the way the service does, by updating the status, the validated
  // quantity and the list of issues.
  method ClassifyLine(item: RequestedItem, view: StoreView) returns (line: CanonicalLine)
    ensures line == Canonical(item, view)
  {
    var row := ProductOf(view, item.product);
    var available := 0;
    if item.product in view.stocks {
      available := Max(0, view.stocks[item.product].stock - view.stocks[item.product].reserved);
    }
    var issues: seq<IssueCode> := [];
    var status := Valid;
    var validatedQuantity := if item.quantity.Whole? then item.quantity.n else 0;
    if row.status == None {
      issues, status, validatedQuantity := issues + [ProductUnavailable], Blocked, 0;
    } else if row.status != Some(Published) {
      issues, status, validatedQuantity := issues + [ProductInactive], Blocked, 0;
    } else if item.quantity.NotWhole? || item.quantity.n < 1 || item.quantity.n > 999 {
      issues, status, validatedQuantity := issues + [InvalidQuantity], Blocked, 0;
    } else if row.price == None || row.price.value <= 0.0 {
      issues, status, validatedQuantity := issues + [ProductUnavailable], Blocked, 0;
    } else if available <= 0 {
      issues, status, validatedQuantity := issues + [OutOfStock], Blocked, 0;
    } else if item.quantity.n > available {
      issues, status, validatedQuantity := issues + [InsufficientStock], ChangesRequired, available;
    }
    if Priced(row) && item.clientPrice.Some?
       && RoundPaisa(item.clientPrice.value) != RoundPaisa(row.price.value) {
      issues := issues + [PriceChanged];
      if status == Valid {
        status := ChangesRequired;
      }
    }
    line := CanonicalLine(
      item.product, validatedQuantity,
      if Priced(row) then row.price.value else 0.0,
      item.quantity,
      if Priced(row) then row.price else None,
      if Priced(row) then (RoundPaisa(row.price.value) * validatedQuantity) as real / 100.0 else 0.0,
      available, status, issues);
  }

  method LoadCanonicalCartItems(view: StoreView, requested: seq<RequestedItem>)
    returns (r: Result<seq<CanonicalLine>, Failure>)
    ensures r.Err? <==> requested == []
    ensures r.Ok? ==> r.value == CanonicalAll(requested, view)
  {
    if |requested| == 0 {
      return Err(CartEmpty);
    }
    var lines: seq<CanonicalLine> := [];
    for i := 0 to |requested|
      invariant lines == CanonicalAll(requested[..i], view)
    {
      var line := ClassifyLine(requested[i], view);
      lines := lines + [line];
    }
    assert requested[..|requested|] == requested;
    r := Ok(lines);
  }

  /******* Validation of a whole delivery cart *******/

  datatype Address = Address(municipality: Option<int>, ward: Option<int>)

  // One state of the database as the services of the delivery zones and the catalogue answer it.
  datatype Snapshot = Snapshot(
    address: (AddressId, CustomerId) -> Option<Address>,
    wardInMunicipality: (int, int) -> bool,
    resolveStore: (int, int) -> Option<StoreId>,
    deliveryFee: (int, int, StoreId, real) -> Option<real>,
    view: StoreId -> StoreView)

  datatype Readiness = Ready | NeedsChanges | NotPossible

  datatype Assessment = Assessment(
    status: Readiness,
    store: Option<StoreId>,
    fee: Option<real>,
    subtotal: real,
    total: real,
    items: seq<CanonicalLine>,
    issues: seq<IssueCode>)

  function SumReal(s: seq<real>): real {
    if s == [] then 0.0 else SumReal(s[..|s| - 1]) + s[|s| - 1]
  }

  function LineTotals(lines: seq<CanonicalLine>): seq<real> {
    seq(|lines|, i requires 0 <= i < |lines| => lines[i].lineTotal)
  }

  function Issues(lines: seq<CanonicalLine>): seq<IssueCode> {
    if lines == [] then [] else Issues(lines[..|lines| - 1]) + lines[|lines| - 1].issues
  }

  predicate Present(id: Option<int>) {
    id.Some? && id.value != 0
  }

  // The municipality, ward and store a delivery to this address goes through, or the issue.
  function ResolveDelivery(db: Snapshot, addressId: AddressId, customer: CustomerId): Result<(int, int, StoreId), IssueCode> {
    match db.address(addressId, customer)
    case None => Err(AddressNotFound)
    case Some(address) =>
      if !Present(address.municipality) || !Present(address.ward) then Err(AddressUnserviceable)
      else
        var m, w := address.municipality.value, address.ward.value;
        if !db.wardInMunicipality(w, m) then Err(AddressUnserviceable)
        else
          match db.resolveStore(m, w)
          case None => Err(AddressUnserviceable)
          case Some(store) => Ok((m, w, store))
  }

  function Rejected(issue: IssueCode): Assessment {
    Assessment(NotPossible, None, None, 0.0, 0.0, [], [issue])
  }

  predicate Has(lines: seq<CanonicalLine>, status: LineStatus) {
    exists i :: 0 <= i < |lines| && lines[i].status == status
  }

  function Assess(db: Snapshot, place: (int, int, StoreId), lines: seq<CanonicalLine>): Assessment {
    var subtotal := SumReal(LineTotals(lines));
    match db.deliveryFee(place.0, place.1, place.2, subtotal)
    case None =>
      Assessment(NotPossible, Some(place.2), None, subtotal, subtotal, lines, Issues(lines) + [AddressUnserviceable])
    case Some(fee) =>
      Assessment(
        if Has(lines, Blocked) then NotPossible else if Has(lines, ChangesRequired) then NeedsChanges else Ready,
        Some(place.2), Some(fee), subtotal, subtotal + fee, lines, Issues(lines))
  }

  function Validation(db: Snapshot, customer: CustomerId, addressId: AddressId, items: seq<RequestedItem>)
    : Result<Assessment, Failure>
  {
    match ResolveDelivery(db, addressId, customer)
    case Err(issue) => Ok(Rejected(issue))
    case Ok(place) =>
      if items == [] then Err(CartEmpty) else Ok(Assess(db, place, CanonicalAll(items, db.view(place.2))))
  }

  class CartValidationService {
    constructor () {}

    method Validate(db: Snapshot, customer: CustomerId, addressId: AddressId, items: seq<RequestedItem>)
      returns (r: Result<Assessment, Failure>)
      ensures r == Validation(db, customer, addressId, items)
    {
      var found := db.address(addressId, customer);
      if found.None? {
        return Ok(Rejected(AddressNotFound));
      }
      var address := found.value;
      if !Present(address.municipality) || !Present(address.ward) {
        return Ok(Rejected(AddressUnserviceable));
      }
      var m, w := address.municipality.value, address.ward.value;
      if !db.wardInMunicipality(w, m) {
        return Ok(Rejected(AddressUnserviceable));
      }
      var assignment := db.resolveStore(m, w);
      if assignment.None? {
        return Ok(Rejected(AddressUnserviceable));
      }
      var store := assignment.value;
      var canonical := LoadCanonicalCartItems(db.view(store), items);
      if canonical.Err? {
        return Err(CartEmpty);
      }
      var lines := canonical.value;
      var itemIssues := Issues(lines);
      var subtotal := SumReal(LineTotals(lines));
      var quote := db.deliveryFee(m, w, store, subtotal);
      if quote.None? {
        return Ok(Assessment(NotPossible, Some(store), None, subtotal, subtotal, lines,
                             itemIssues + [AddressUnserviceable]));
      }
      var hasBlockingItem := Has(lines, Blocked);
      var hasChanges := Has(lines, ChangesRequired);
      r := Ok(Assessment(
                if hasBlockingItem then NotPossible else if hasChanges then NeedsChanges else Ready,
                Some(store), Some(quote.value), subtotal, subtotal + quote.value, lines, itemIssues));
    }
  }

  /******* The correction is a fixed point *******/

  // Blocked lines are dropped; every other line is asked for again with the quantity that was
  // validated and the price that is in force.
  function Corrected(lines: seq<CanonicalLine>): seq<RequestedItem> {
    if lines == [] then []
    else
      var last := lines[|lines| - 1];
      Corrected(lines[..|lines| - 1]) +
      if last.status == Blocked then [] else [RequestedItem(last.product, Whole(last.quantity), last.currentPrice)]
  }

  lemma {:induction false} CorrectionIsFixedPoint(items: seq<RequestedItem>, view: StoreView)
    ensures
      var again := CanonicalAll(Corrected(CanonicalAll(items, view)), view);
      (forall i :: 0 <= i < |again| ==> again[i].status == Valid)
      && (again == [] <==> forall i :: 0 <= i < |items| ==> !Sellable(items[i], view))
  {
    var lines := CanonicalAll(items, view);
    if items != [] {
      var n := |items| - 1;
      assert lines[..n] == CanonicalAll(items[..n], view);
      CorrectionIsFixedPoint(items[..n], view);
      var front := Corrected(lines[..n]);
      var last := lines[n];
      assert last == Canonical(items[n], view);
      if last.status == Blocked {
        assert Corrected(lines) == front;
      } else {
        var item := RequestedItem(last.product, Whole(last.quantity), last.currentPrice);
        assert Corrected(lines) == front + [item];
        assert Sellable(items[n], view);
        assert Canonical(item, view).status == Valid;
        assert CanonicalAll(front + [item], view) == CanonicalAll(front, view) + [Canonical(item, view)];
      }
    }
  }

  // Resubmitting the correction in the same state is Ready exactly when the address can be
  // served, some line could be sold and the corrected subtotal gets a delivery quote.
  lemma CorrectedCartIsReady(db: Snapshot, customer: CustomerId, addressId: AddressId, items: seq<RequestedItem>)
    requires ResolveDelivery(db, addressId, customer).Ok?
    ensures
      var place := ResolveDelivery(db, addressId, customer).value;
      var view := db.view(place.2);
      var corrected := Corrected(CanonicalAll(items, view));
      var r := Validation(db, customer, addressId, corrected);
      (r.Err? <==> forall i :: 0 <= i < |items| ==> !Sellable(items[i], view))
      && (r.Ok? ==> (r.value.status == Ready <==>
            db.deliveryFee(place.0, place.1, place.2, SumReal(LineTotals(CanonicalAll(corrected, view)))).Some?))
  {
    var place := ResolveDelivery(db, addressId, customer).value;
    CorrectionIsFixedPoint(items, db.view(place.2));
  }
}
