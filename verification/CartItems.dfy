// The rows of a cart. An add looks for a row of its product and then writes, without holding the
// cart in between, so adds that race can leave two rows of one product.
module CartItems {
  import opened Basics
  import opened Identifiers
  import opened CheckoutPricing

  datatype CartRow = CartRow(id: int, line: Line)

  predicate DistinctIds(rows: seq<CartRow>) {
    forall i, j :: 0 <= i < j < |rows| ==> rows[i].id != rows[j].id
  }

  function Lines(rows: seq<CartRow>): (lines: seq<Line>)
    ensures |lines| == |rows|
  {
    seq(|rows|, i requires 0 <= i < |rows| => rows[i].line)
  }

  // SELECT * FROM cart_items WHERE cart_id = .. AND product_id = ..
  function LookUp(rows: seq<CartRow>, p: ProductId): (found: Option<int>)
    ensures found.None? <==> !Mentions(Lines(rows), p)
    ensures found.Some? ==> exists i :: 0 <= i < |rows| && rows[i].id == found.value && rows[i].line.product == p
  {
    if rows == [] then None
    else if rows[|rows| - 1].line.product == p then
      assert Lines(rows)[|rows| - 1].product == p;
      Some(rows[|rows| - 1].id)
    else
      var front := rows[..|rows| - 1];
      assert forall i :: 0 <= i < |front| ==> Lines(front)[i] == Lines(rows)[i];
      LookUp(front, p)
  }

  function Increase(row: CartRow, id: int, quantity: int): CartRow {
    if row.id == id then row.(line := row.line.(quantity := row.line.quantity + quantity)) else row
  }

  // UPDATE .. SET quantity = quantity + .. WHERE id = .., or INSERT.
  function Write(rows: seq<CartRow>, found: Option<int>, line: Line, id: int): seq<CartRow> {
    if found.None? then rows + [CartRow(id, line)]
    else seq(|rows|, i requires 0 <= i < |rows| => Increase(rows[i], found.value, line.quantity))
  }

  // Whatever happened to the cart between an add's two statements: its write repeats a product
  // exactly when it saw no row of the product and there is one by now.
  lemma WriteRepeatsIff(seen: seq<CartRow>, rows: seq<CartRow>, line: Line, id: int)
    requires DistinctProducts(Lines(rows))
    ensures DistinctProducts(Lines(Write(rows, LookUp(seen, line.product), line, id)))
            <==> Mentions(Lines(seen), line.product) || !Mentions(Lines(rows), line.product)
  {
    var found := LookUp(seen, line.product);
    var lines, after := Lines(rows), Lines(Write(rows, found, line, id));
    if found.None? {
      assert after == lines + [line];
      if Mentions(lines, line.product) {
        var i :| 0 <= i < |lines| && lines[i].product == line.product;
        assert after[i].product == after[|lines|].product;
      }
    } else {
      assert forall i :: 0 <= i < |rows| ==> after[i].product == lines[i].product;
    }
  }

  // Two adds of a product that the cart does not hold, each looking before the other writes.
  lemma RacingAdds(rows: seq<CartRow>, p: ProductId, a: int, b: int, idA: int, idB: int)
    requires !Mentions(Lines(rows), p)
    ensures
      var afterA := Write(rows, LookUp(rows, p), Line(p, a), idA);
      var afterB := Write(afterA, LookUp(rows, p), Line(p, b), idB);
      Lines(afterB) == Lines(rows) + [Line(p, a), Line(p, b)] && !DistinctProducts(Lines(afterB))
  {
    var afterA := Write(rows, LookUp(rows, p), Line(p, a), idA);
    var lines := Lines(Write(afterA, LookUp(rows, p), Line(p, b), idB));
    assert lines[|rows|].product == lines[|rows| + 1].product;
  }

  lemma QuantityOfAppend(lines: seq<Line>, line: Line, p: ProductId)
    ensures QuantityOf(lines + [line], p) == QuantityOf(lines, p) + if line.product == p then line.quantity else 0
  {
    assert (lines + [line])[..|lines|] == lines;
  }

  // Increasing the row with an id changes the quantity of its product alone.
  lemma {:induction false} IncreaseAdds(rows: seq<CartRow>, at: nat, quantity: int, p: ProductId)
    requires DistinctIds(rows) && at < |rows|
    ensures
      var line := Line(rows[at].line.product, quantity);
      QuantityOf(Lines(Write(rows, Some(rows[at].id), line, 0)), p)
      == QuantityOf(Lines(rows), p) + if line.product == p then quantity else 0
  {
    var n := |rows| - 1;
    var line := Line(rows[at].line.product, quantity);
    var after := Write(rows, Some(rows[at].id), line, 0);
    assert Lines(rows)[..n] == Lines(rows[..n]);
    if at < n {
      IncreaseAdds(rows[..n], at, quantity, p);
      assert Lines(after)[..n] == Lines(Write(rows[..n], Some(rows[at].id), line, 0));
    } else {
      assert forall i :: 0 <= i < n ==> after[i] == rows[i];
      assert Lines(after)[..n] == Lines(rows[..n]);
    }
  }

  class ShoppingCart {
    var rows: seq<CartRow>
    var nextId: int

    predicate Valid()
      reads this
    {
      DistinctIds(rows) && forall i :: 0 <= i < |rows| ==> rows[i].id < nextId
    }

    constructor ()
      ensures Valid() && rows == []
    {
      rows, nextId := [], 0;
    }

    // An add that nothing comes between.
    method AddToCart(line: Line, sellable: bool) returns (ok: bool)
      requires Valid()
      modifies this
      ensures Valid() && ok == sellable
      ensures !ok ==> rows == old(rows)
      ensures ok && DistinctProducts(Lines(old(rows))) ==> DistinctProducts(Lines(rows))
      ensures ok ==>
                forall p :: QuantityOf(Lines(rows), p)
                         == QuantityOf(Lines(old(rows)), p) + if p == line.product then line.quantity else 0
    {
      if !sellable {
        return false;
      }
      var found := LookUp(rows, line.product);
      if DistinctProducts(Lines(rows)) {
        WriteRepeatsIff(rows, rows, line, nextId);
      }
      forall p
        ensures QuantityOf(Lines(Write(rows, found, line, nextId)), p)
             == QuantityOf(Lines(rows), p) + if p == line.product then line.quantity else 0
      {
        if found.None? {
          assert Lines(rows + [CartRow(nextId, line)]) == Lines(rows) + [line];
          QuantityOfAppend(Lines(rows), line, p);
        } else {
          var i :| 0 <= i < |rows| && rows[i].id == found.value && rows[i].line.product == line.product;
          IncreaseAdds(rows, i, line.quantity, p);
        }
      }
      rows := Write(rows, found, line, nextId);
      if found.None? {
        nextId := nextId + 1;
      }
      ok := true;
    }

    // Deletes all rows and inserts the given ones, or leaves everything when one cannot be sold.
    method ReplaceItems(items: seq<Line>, sellable: ProductId -> bool) returns (ok: bool)
      requires Valid()
      modifies this
      ensures Valid()
      ensures ok <==> forall i :: 0 <= i < |items| ==> sellable(items[i].product)
      ensures if ok then Lines(rows) == items else rows == old(rows)
    {
      var inserted: seq<CartRow> := [];
      for i := 0 to |items|
        invariant rows == old(rows) && nextId == old(nextId)
        invariant Lines(inserted) == items[..i]
        invariant forall k :: 0 <= k < i ==> inserted[k].id == nextId + k && sellable(items[k].product)
      {
        if !sellable(items[i].product) {
          return false;
        }
        inserted := inserted + [CartRow(nextId + i, items[i])];
      }
      rows, nextId := inserted, nextId + |items|;
      ok := true;
    }
  }
}
