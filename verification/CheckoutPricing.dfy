// The item check and the paisa totals of checkout, and their agreement with validation.
module CheckoutPricing {
  import opened Basics
  import opened Identifiers
  import opened CartValidation

  // A row of cart_items, and later of web_order_items.
  datatype Line = Line(product: ProductId, quantity: int)

  datatype ItemError =
    | NotEnoughStock(product: ProductId)
    | UnavailableProduct
    | PriceUnavailable(product: ProductId)

  function Requests(lines: seq<Line>): (items: seq<RequestedItem>) {
    seq(|lines|, i requires 0 <= i < |lines| =>
      RequestedItem(lines[i].product, Whole(lines[i].quantity), None))
  }

  function CheckoutLines(lines: seq<Line>, view: StoreView): seq<CanonicalLine> {
    CanonicalAll(Requests(lines), view)
  }

  // The message is chosen from the first issue alone. An invalid quantity has no message of its
  // own and is reported as a missing price.
  function ErrorOf(line: CanonicalLine): ItemError
    requires line.issues != []
  {
    match line.issues[0]
    case InsufficientStock => NotEnoughStock(line.product)
    case OutOfStock => NotEnoughStock(line.product)
    case ProductInactive => UnavailableProduct
    case ProductUnavailable => UnavailableProduct
    case _ => PriceUnavailable(line.product)
  }

  function LinePaisa(lines: seq<CanonicalLine>): seq<int> {
    seq(|lines|, i requires 0 <= i < |lines| => RoundPaisa(lines[i].authoritativePrice) * lines[i].quantity)
  }

  predicate AllValid(lines: seq<CanonicalLine>) {
    forall i :: 0 <= i < |lines| ==> lines[i].status == Valid
  }

  // The item check: the subtotal in paisa, or the error of the first line that is not valid.
  function ItemCheck(lines: seq<CanonicalLine>): Result<int, ItemError>
    requires forall i :: 0 <= i < |lines| ==> (lines[i].status == Valid <==> lines[i].issues == [])
  {
    if AllValid(lines) then Ok(Sum(LinePaisa(lines))) else Err(FirstError(lines))
  }

  function FirstError(lines: seq<CanonicalLine>): ItemError
    requires forall i :: 0 <= i < |lines| ==> (lines[i].status == Valid <==> lines[i].issues == [])
    requires !AllValid(lines)
  {
    if lines[0].status != Valid then ErrorOf(lines[0])
    else
      assert forall i :: 1 <= i < |lines| ==> lines[i] == lines[1..][i - 1];
      FirstError(lines[1..])
  }

  lemma {:induction false} FirstErrorAt(lines: seq<CanonicalLine>, i: nat)
    requires i < |lines| && lines[i].status != Valid && AllValid(lines[..i])
    requires forall j :: 0 <= j < |lines| ==> (lines[j].status == Valid <==> lines[j].issues == [])
    ensures FirstError(lines) == ErrorOf(lines[i])
  {
    if i > 0 {
      assert lines[..i][0].status == Valid;
      assert lines[1..][..i - 1] == lines[..i][1..];
      FirstErrorAt(lines[1..], i - 1);
    }
  }

  lemma {:induction false} FirstInvalid(lines: seq<CanonicalLine>) returns (i: nat)
    requires !AllValid(lines)
    ensures i < |lines| && lines[i].status != Valid && AllValid(lines[..i])
  {
    if lines[0].status != Valid {
      i := 0;
    } else {
      assert forall k :: 1 <= k < |lines| ==> lines[k] == lines[1..][k - 1];
      i := FirstInvalid(lines[1..]);
      assert lines[..i + 1] == [lines[0]] + lines[1..][..i];
      i := i + 1;
    }
  }

  lemma FirstInvalidIsOne(lines: seq<CanonicalLine>, i: nat, k: nat)
    requires i < |lines| && lines[i].status != Valid && AllValid(lines[..i])
    requires k < |lines| && lines[k].status != Valid && AllValid(lines[..k])
    ensures i == k
  {
    assert forall m :: 0 <= m < i ==> lines[..i][m] == lines[m];
    assert forall m :: 0 <= m < k ==> lines[..k][m] == lines[m];
  }

  // Line i stops the item check with a quantity no cart may hold, of a product on sale.
  predicate StopsOnQuantity(lines: seq<Line>, view: StoreView, i: nat) {
    i < |lines| && AllValid(CheckoutLines(lines, view)[..i])
    && ProductOf(view, lines[i].product).status == Some(Published) && !(1 <= lines[i].quantity <= 999)
  }

  // A missing price is what checkout reports exactly when the first line that is not valid has a
  // quantity out of range; a price that is really missing is reported as an unavailable product.
  lemma MissingPriceMeansQuantity(lines: seq<Line>, view: StoreView, p: ProductId)
    ensures ItemCheck(CheckoutLines(lines, view)) == Err(PriceUnavailable(p))
            <==> exists i: nat :: StopsOnQuantity(lines, view, i) && lines[i].product == p
  {
    var checked := CheckoutLines(lines, view);
    if !AllValid(checked) {
      var i := FirstInvalid(checked);
      FirstErrorAt(checked, i);
      assert checked[i] == Canonical(Requests(lines)[i], view);
      assert StopsOnQuantity(lines, view, i) <==> ErrorOf(checked[i]) == PriceUnavailable(lines[i].product);
      forall k: nat | StopsOnQuantity(lines, view, k) ensures k == i {
        assert checked[k] == Canonical(Requests(lines)[k], view);
        FirstInvalidIsOne(checked, i, k);
      }
    } else {
      forall k: nat | k < |lines| ensures !StopsOnQuantity(lines, view, k) {
        assert checked[k] == Canonical(Requests(lines)[k], view);
      }
    }
  }

  method PriceItems(lines: seq<CanonicalLine>) returns (r: Result<int, ItemError>)
    requires forall i :: 0 <= i < |lines| ==> (lines[i].status == Valid <==> lines[i].issues == [])
    ensures r == ItemCheck(lines)
  {
    var subtotalPaisa := 0;
    for i := 0 to |lines|
      invariant AllValid(lines[..i])
      invariant subtotalPaisa == Sum(LinePaisa(lines[..i]))
    {
      if lines[i].status != Valid {
        FirstErrorAt(lines, i);
        return Err(ErrorOf(lines[i]));
      }
      var linePaisa := RoundPaisa(lines[i].authoritativePrice) * lines[i].quantity;
      assert LinePaisa(lines[..i + 1]) == LinePaisa(lines[..i]) + [linePaisa];
      SumAppend(LinePaisa(lines[..i]), linePaisa);
      subtotalPaisa := subtotalPaisa + linePaisa;
    }
    assert lines[..|lines|] == lines;
    r := Ok(subtotalPaisa);
  }

  /******* Validation and checkout agree in a fixed state *******/

  // The request that was validated asks for exactly the rows of the cart.
  predicate SameCart(items: seq<RequestedItem>, lines: seq<Line>) {
    |items| == |lines|
    && forall i :: 0 <= i < |items| ==> items[i].product == lines[i].product && items[i].quantity == Whole(lines[i].quantity)
  }

  lemma {:induction false} SubtotalsAgree(items: seq<RequestedItem>, lines: seq<Line>, view: StoreView)
    requires SameCart(items, lines)
    ensures
      SumReal(LineTotals(CanonicalAll(items, view))) == Sum(LinePaisa(CheckoutLines(lines, view))) as real / 100.0
  {
    var validated, checked := CanonicalAll(items, view), CheckoutLines(lines, view);
    if items != [] {
      var n := |items| - 1;
      SubtotalsAgree(items[..n], lines[..n], view);
      assert LineTotals(validated)[..n] == LineTotals(CanonicalAll(items[..n], view));
      assert LinePaisa(checked)[..n] == LinePaisa(CheckoutLines(lines[..n], view));
      assert validated[n].lineTotal == LinePaisa(checked)[n] as real / 100.0;
    }
  }

  // A Ready validation means that the item check of checkout, run in the same state over the
  // same rows, accepts every line, and that both arrive at the same subtotal, fee and total.
  lemma ReadyMeansAccepted(
    db: Snapshot, customer: CustomerId, addressId: AddressId, items: seq<RequestedItem>, lines: seq<Line>)
    requires SameCart(items, lines)
    requires Validation(db, customer, addressId, items).Ok?
    requires Validation(db, customer, addressId, items).value.status == Ready
    ensures
      var a := Validation(db, customer, addressId, items).value;
      var place := ResolveDelivery(db, addressId, customer);
      place.Ok? && a.store == Some(place.value.2)
      && var check := ItemCheck(CheckoutLines(lines, db.view(place.value.2)));
      check.Ok? && a.subtotal == check.value as real / 100.0
      && a.fee == db.deliveryFee(place.value.0, place.value.1, place.value.2, check.value as real / 100.0)
      && a.fee.Some? && a.total == check.value as real / 100.0 + a.fee.value
  {
    var place := ResolveDelivery(db, addressId, customer).value;
    var view := db.view(place.2);
    var validated, checked := CanonicalAll(items, view), CheckoutLines(lines, view);
    forall i | 0 <= i < |checked| ensures checked[i].status == Valid {
      assert validated[i].status == Valid;
    }
    SubtotalsAgree(items, lines, view);
  }

  /******* Why the products of a cart must be distinct *******/

  function QuantityOf(lines: seq<Line>, p: ProductId): int {
    if lines == [] then 0
    else QuantityOf(lines[..|lines| - 1], p) + if lines[|lines| - 1].product == p then lines[|lines| - 1].quantity else 0
  }

  predicate DistinctProducts(lines: seq<Line>) {
    forall i, j :: 0 <= i < j < |lines| ==> lines[i].product != lines[j].product
  }

  predicate Mentions(lines: seq<Line>, p: ProductId) {
    exists i :: 0 <= i < |lines| && lines[i].product == p
  }

  lemma {:induction false} QuantityOfAbsent(lines: seq<Line>, p: ProductId)
    requires !Mentions(lines, p)
    ensures QuantityOf(lines, p) == 0
  {
    if lines != [] {
      var front := lines[..|lines| - 1];
      assert forall i :: 0 <= i < |front| ==> front[i] == lines[i];
      QuantityOfAbsent(front, p);
    }
  }

  lemma {:induction false} QuantityOfDistinct(lines: seq<Line>, i: nat)
    requires DistinctProducts(lines) && i < |lines|
    ensures QuantityOf(lines, lines[i].product) == lines[i].quantity
  {
    var n := |lines| - 1;
    if i == n {
      assert !Mentions(lines[..n], lines[i].product);
      QuantityOfAbsent(lines[..n], lines[i].product);
    } else {
      QuantityOfDistinct(lines[..n], i);
    }
  }

  lemma {:induction false} QuantityOfPositive(lines: seq<Line>, p: ProductId)
    requires forall i :: 0 <= i < |lines| ==> lines[i].quantity >= 1
    ensures QuantityOf(lines, p) >= 0
    ensures forall i :: 0 <= i < |lines| && lines[i].product == p ==> lines[i].quantity <= QuantityOf(lines, p)
    ensures forall i, j :: 0 <= i < j < |lines| && lines[i].product == p && lines[j].product == p ==>
              lines[i].quantity + lines[j].quantity <= QuantityOf(lines, p)
  {
    if lines != [] {
      var front := lines[..|lines| - 1];
      QuantityOfPositive(front, p);
      assert forall i :: 0 <= i < |front| ==> front[i] == lines[i];
    }
  }

  // All lines together fit the stock.
  predicate AllFit(lines: seq<Line>, view: StoreView) {
    forall i :: 0 <= i < |lines| ==> QuantityOf(lines, lines[i].product) <= AvailableIn(view, lines[i].product)
  }

  predicate QuantitiesInRange(lines: seq<Line>) {
    forall i :: 0 <= i < |lines| ==> 1 <= lines[i].quantity <= 999
  }

  // No product is repeated, or the item check refuses the rows for a quantity.
  predicate Harmless(lines: seq<Line>) {
    DistinctProducts(lines) || !QuantitiesInRange(lines)
  }

  // What the item check asks of each line by itself.
  lemma CheckPassesIff(lines: seq<Line>, view: StoreView)
    ensures ItemCheck(CheckoutLines(lines, view)).Ok? <==>
            forall i :: 0 <= i < |lines| ==>
              Sellable(Requests(lines)[i], view) && lines[i].quantity <= AvailableIn(view, lines[i].product)
  {
    var checked := CheckoutLines(lines, view);
    forall i | 0 <= i < |lines|
      ensures checked[i].status == Valid <==>
              Sellable(Requests(lines)[i], view) && lines[i].quantity <= AvailableIn(view, lines[i].product)
    {
      assert checked[i] == Canonical(Requests(lines)[i], view);
    }
  }

  // The largest quantity any one line asks for.
  function Largest(lines: seq<Line>): (n: int)
    ensures forall i :: 0 <= i < |lines| ==> lines[i].quantity <= n
    ensures n == 0 || exists i :: 0 <= i < |lines| && lines[i].quantity == n
  {
    if lines == [] then 0
    else
      var last, n := lines[|lines| - 1].quantity, Largest(lines[..|lines| - 1]);
      if last >= n then last else n
  }

  lemma {:induction false} LargestIsNatural(lines: seq<Line>)
    ensures Largest(lines) >= 0
  {
    if lines != [] {
      LargestIsNatural(lines[..|lines| - 1]);
    }
  }

  // A store that sells everything the lines name, with just enough of p for its largest line.
  function TightView(lines: seq<Line>, p: ProductId): StoreView {
    var ids := set i | 0 <= i < |lines| :: lines[i].product;
    StoreView(
      map q | q in ids :: ProductRow(Some(Published), Some(1.0)),
      map q | q in ids :: StockRow(if q == p then Largest(OnlyProduct(lines, p)) else Largest(lines), 0))
  }

  lemma TightViewPasses(lines: seq<Line>, p: ProductId)
    requires QuantitiesInRange(lines)
    ensures ItemCheck(CheckoutLines(lines, TightView(lines, p))).Ok?
  {
    var view := TightView(lines, p);
    var ids := set i | 0 <= i < |lines| :: lines[i].product;
    forall i | 0 <= i < |lines|
      ensures Sellable(Requests(lines)[i], view) && lines[i].quantity <= AvailableIn(view, lines[i].product)
    {
      assert lines[i].product in ids;
      OnlyProductKeeps(lines, p, i);
    }
    CheckPassesIff(lines, view);
  }

  // The item check looks at one line at a time. That protects the stock in every state exactly
  // when no product is repeated, or some quantity is out of range so that it never passes.
  lemma PerLineCheckIsEnoughIffDistinct(lines: seq<Line>)
    ensures
      (forall view :: ItemCheck(CheckoutLines(lines, view)).Ok? ==> AllFit(lines, view))
      <==> Harmless(lines)
  {
    forall view | Harmless(lines) && ItemCheck(CheckoutLines(lines, view)).Ok?
      ensures AllFit(lines, view)
    {
      CheckPassesIff(lines, view);
      forall i | 0 <= i < |lines| ensures QuantityOf(lines, lines[i].product) <= AvailableIn(view, lines[i].product) {
        assert forall k :: 0 <= k < |lines| ==> QuantityInRange(Requests(lines)[k].quantity);
        QuantityOfDistinct(lines, i);
      }
    }
    if !Harmless(lines) {
      var p, i := RepeatedDoesNotFit(lines);
      TightViewPasses(lines, p);
      assert !AllFit(lines, TightView(lines, p));
    }
  }

  // Rows that repeat a product ask for more of it together than its largest row does.
  lemma RepeatedDoesNotFit(lines: seq<Line>) returns (p: ProductId, i: nat)
    requires !Harmless(lines)
    ensures i < |lines| && lines[i].product == p
    ensures 0 < AvailableIn(TightView(lines, p), p) == Largest(OnlyProduct(lines, p)) < QuantityOf(lines, p)
  {
    var a, b :| 0 <= a < b < |lines| && lines[a].product == lines[b].product;
    p, i := lines[a].product, a;
    LargestOfProductIsLess(lines, p, a, b);
    OnlyProductKeeps(lines, p, a);
    var ids := set k | 0 <= k < |lines| :: lines[k].product;
    assert p in ids;
  }

  function OnlyProduct(lines: seq<Line>, p: ProductId): (same: seq<Line>)
    ensures forall i :: 0 <= i < |same| ==> same[i] in lines && same[i].product == p
  {
    if lines == [] then []
    else
      OnlyProduct(lines[..|lines| - 1], p) + if lines[|lines| - 1].product == p then [lines[|lines| - 1]] else []
  }

  lemma {:induction false} OnlyProductKeeps(lines: seq<Line>, p: ProductId, i: nat)
    requires i < |lines|
    ensures lines[i].product == p ==> lines[i] in OnlyProduct(lines, p)
  {
    if i < |lines| - 1 {
      OnlyProductKeeps(lines[..|lines| - 1], p, i);
    }
  }

  lemma LargestOfProductIsLess(lines: seq<Line>, p: ProductId, i: nat, j: nat)
    requires forall k :: 0 <= k < |lines| ==> lines[k].quantity >= 1
    requires i < j < |lines| && lines[i].product == p && lines[j].product == p
    ensures 0 <= Largest(OnlyProduct(lines, p)) < QuantityOf(lines, p)
  {
    var same := OnlyProduct(lines, p);
    OnlyProductKeeps(lines, p, i);
    QuantityOfPositive(lines, p);
    var n := Largest(same);
    if n > 0 {
      var m :| 0 <= m < |same| && same[m].quantity == n;
      assert same[m] in lines;
      var k :| 0 <= k < |lines| && lines[k] == same[m];
      if k == i {
        assert n + lines[j].quantity <= QuantityOf(lines, p);
      } else if k < i {
        assert lines[k].quantity + lines[i].quantity <= QuantityOf(lines, p);
      } else {
        assert lines[i].quantity + lines[k].quantity <= QuantityOf(lines, p);
      }
    }
  }
}
