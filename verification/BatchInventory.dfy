// Batch stock: deduction in order of expiry, and the merge of batches.
module BatchInventory {
  import opened Basics
  import opened Identifiers

  // A row of batch_inventory. Quantities count the column's smallest unit: units of an integer
  // column, hundredths of one with two decimals. Rows without an expiry date sort last.
  datatype Batch = Batch(
    id: int,
    store: StoreId,
    product: ProductId,
    batchCode: string,
    expiry: Option<int>,
    quantity: int,
    cost: real)

  /******* Greedy deduction *******/

  // What the loop takes from each of the listed quantities to cover a request.
  function Greedy(available: seq<int>, wanted: int): (taken: seq<int>)
    ensures |taken| == |available|
    decreases |available|
  {
    if available == [] then []
    else
      var first := if wanted <= 0 then 0 else Min(available[0], wanted);
      [first] + Greedy(available[1..], wanted - first)
  }

  // A way to take an amount from the listed quantities.
  predicate Takes(available: seq<int>, taken: seq<int>, amount: int) {
    |taken| == |available|
    && (forall i :: 0 <= i < |taken| ==> 0 <= taken[i] <= available[i])
    && Sum(taken) == amount
  }

  predicate AllPositive(s: seq<int>) {
    forall i :: 0 <= i < |s| ==> s[i] > 0
  }

  lemma {:induction false} SumCons(x: int, s: seq<int>)
    ensures Sum([x] + s) == x + Sum(s)
  {
    SumConcat([x], s);
    assert Sum([x]) == x;
  }

  lemma SumSplit(s: seq<int>)
    requires s != []
    ensures Sum(s) == s[0] + Sum(s[1..])
  {
    SumCons(s[0], s[1..]);
    assert [s[0]] + s[1..] == s;
  }

  // The amount covered is the smaller of the request and the total; no quantity goes negative.
  lemma {:induction false} GreedyTakes(available: seq<int>, wanted: nat)
    requires AllPositive(available)
    ensures Takes(available, Greedy(available, wanted), Min(wanted, Sum(available)))
    decreases |available|
  {
    if available != [] {
      var taken := Greedy(available, wanted);
      SumSplit(available);
      SumSplit(taken);
      GreedyTakes(available[1..], wanted - taken[0]);
      SumNonNegative(available[1..]);
      assert taken[1..] == Greedy(available[1..], wanted - taken[0]);
    }
  }

  // The touched quantities form a prefix, and all of them but the last are emptied.
  lemma {:induction false} GreedyTouchesPrefix(available: seq<int>, wanted: nat, i: nat, j: nat)
    requires AllPositive(available) && i < j < |available| && Greedy(available, wanted)[j] > 0
    ensures Greedy(available, wanted)[i] == available[i]
    decreases |available|
  {
    var first := Greedy(available, wanted)[0];
    if i > 0 {
      GreedyTouchesPrefix(available[1..], wanted - first, i - 1, j - 1);
    } else if first < available[0] {
      GreedyOfNothing(available[1..], wanted - first);
    }
  }

  lemma {:induction false} GreedyOfNothing(available: seq<int>, wanted: int)
    requires wanted <= 0
    ensures forall i :: 0 <= i < |available| ==> Greedy(available, wanted)[i] == 0
    decreases |available|
  {
    if available != [] {
      GreedyOfNothing(available[1..], wanted);
    }
  }

  // Among all ways to take the same amount, the greedy one has taken the most after every
  // number of batches: no other choice uses up more of the stock that expires earliest.
  lemma {:induction false} GreedyDominates(available: seq<int>, wanted: nat, other: seq<int>, k: nat)
    requires AllPositive(available) && wanted <= Sum(available)
    requires Takes(available, other, wanted) && k <= |available|
    ensures Sum(other[..k]) <= Sum(Greedy(available, wanted)[..k])
  {
    PrefixIsMin(available, wanted, k);
    PrefixBounds(available, other, k);
  }

  lemma {:induction false} PrefixIsMin(available: seq<int>, wanted: nat, k: nat)
    requires AllPositive(available) && k <= |available|
    ensures Sum(Greedy(available, wanted)[..k]) == Min(wanted, Sum(available[..k]))
    decreases k
  {
    if k > 0 {
      var taken := Greedy(available, wanted);
      PrefixIsMin(available[1..], wanted - taken[0], k - 1);
      assert taken[..k] == [taken[0]] + Greedy(available[1..], wanted - taken[0])[..k - 1];
      assert available[..k] == [available[0]] + available[1..][..k - 1];
      SumCons(taken[0], Greedy(available[1..], wanted - taken[0])[..k - 1]);
      SumCons(available[0], available[1..][..k - 1]);
      SumNonNegative(available[1..][..k - 1]);
    }
  }

  lemma {:induction false} PrefixBounds(available: seq<int>, taken: seq<int>, k: nat)
    requires |taken| == |available| && k <= |taken|
    requires forall i :: 0 <= i < |taken| ==> 0 <= taken[i] <= available[i]
    ensures Sum(taken[..k]) <= Sum(available[..k]) && Sum(taken[..k]) <= Sum(taken)
  {
    SumNonNegative(taken[k..]);
    SumConcat(taken[..k], taken[k..]);
    assert taken[..k] + taken[k..] == taken;
    SumBelow(taken[..k], available[..k]);
  }

  lemma {:induction false} SumBelow(a: seq<int>, b: seq<int>)
    requires |a| == |b| && forall i :: 0 <= i < |a| ==> a[i] <= b[i]
    ensures Sum(a) <= Sum(b)
  {
    if a != [] {
      SumBelow(a[..|a| - 1], b[..|b| - 1]);
    }
  }

  /******* The table *******/

  predicate Listed(b: Batch, product: ProductId, store: StoreId) {
    b.product == product && b.store == store && b.quantity > 0
  }

  predicate ExpiresNoLater(a: Batch, b: Batch) {
    b.expiry.None? || (a.expiry.Some? && a.expiry.value <= b.expiry.value)
  }

  predicate ByExpiry(s: seq<Batch>) {
    forall i, j :: 0 <= i < j < |s| ==> ExpiresNoLater(s[i], s[j])
  }

  predicate DistinctIds(rows: seq<Batch>) {
    forall i, j :: 0 <= i < j < |rows| ==> rows[i].id != rows[j].id
  }

  function Quantities(s: seq<Batch>): (q: seq<int>)
    ensures |q| == |s|
  {
    seq(|s|, i requires 0 <= i < |s| => s[i].quantity)
  }

  // The table after the amounts taken have been subtracted from the batches with those ids.
  function Subtract(rows: seq<Batch>, batches: seq<Batch>, taken: seq<int>): (out: seq<Batch>)
    requires |taken| == |batches|
    ensures |out| == |rows|
  {
    seq(|rows|, i requires 0 <= i < |rows| =>
      rows[i].(quantity := rows[i].quantity - TakenFrom(rows[i].id, batches, taken)))
  }

  function TakenFrom(id: int, batches: seq<Batch>, taken: seq<int>): int
    requires |taken| == |batches|
  {
    if batches == [] then 0
    else
      var n := |batches| - 1;
      TakenFrom(id, batches[..n], taken[..n]) + if batches[n].id == id then taken[n] else 0
  }

  function Matching(rows: seq<Batch>, product: ProductId, store: StoreId): seq<Batch> {
    if rows == [] then []
    else
      var n := |rows| - 1;
      Matching(rows[..n], product, store) + if Listed(rows[n], product, store) then [rows[n]] else []
  }

  // Places a batch after all that expire no later.
  function InsertByExpiry(b: Batch, s: seq<Batch>): (out: seq<Batch>)
    requires ByExpiry(s)
    ensures ByExpiry(out) && multiset(out) == multiset(s) + multiset{b}
  {
    if s == [] then [b]
    else
      var n := |s| - 1;
      assert s == s[..n] + [s[n]];
      if ExpiresNoLater(s[n], b) then s + [b]
      else
        var front := InsertByExpiry(b, s[..n]);
        InsertedBefore(front, b, s[..n], s[n]);
        front + [s[n]]
  }

  lemma {:induction false} InsertKeepsDistinct(b: Batch, s: seq<Batch>)
    requires ByExpiry(s) && DistinctIds(s) && forall i :: 0 <= i < |s| ==> s[i].id != b.id
    ensures DistinctIds(InsertByExpiry(b, s))
  {
    if s != [] {
      var n := |s| - 1;
      if !ExpiresNoLater(s[n], b) {
        InsertKeepsDistinct(b, s[..n]);
        var front := InsertByExpiry(b, s[..n]);
        forall i | 0 <= i < |front| ensures front[i].id != s[n].id {
          InsertedFrom(b, s[..n], i);
        }
      }
    }
  }

  lemma InsertedFrom(b: Batch, s: seq<Batch>, i: nat)
    requires ByExpiry(s) && i < |InsertByExpiry(b, s)|
    ensures InsertByExpiry(b, s)[i] == b || InsertByExpiry(b, s)[i] in s
  {
    assert InsertByExpiry(b, s)[i] in multiset(InsertByExpiry(b, s));
  }

  lemma InsertedBefore(front: seq<Batch>, b: Batch, s: seq<Batch>, last: Batch)
    requires multiset(front) == multiset(s) + multiset{b}
    requires ExpiresNoLater(b, last) && forall i :: 0 <= i < |s| ==> ExpiresNoLater(s[i], last)
    ensures forall i :: 0 <= i < |front| ==> ExpiresNoLater(front[i], last)
  {
    forall i | 0 <= i < |front| ensures ExpiresNoLater(front[i], last) {
      assert front[i] in multiset(front);
      assert front[i] == b || front[i] in s;
    }
  }

  function TotalListed(rows: seq<Batch>, product: ProductId, store: StoreId): int {
    Sum(Quantities(Matching(rows, product, store)))
  }

  lemma {:induction false} MatchingIsListed(rows: seq<Batch>, product: ProductId, store: StoreId, b: Batch)
    ensures b in Matching(rows, product, store) <==> b in rows && Listed(b, product, store)
  {
    if rows != [] {
      var n := |rows| - 1;
      MatchingIsListed(rows[..n], product, store, b);
      assert rows == rows[..n] + [rows[n]];
    }
  }

  function Without(s: seq<Batch>, k: nat): seq<Batch>
    requires k < |s|
  {
    s[..k] + s[k + 1..]
  }

  lemma SumWithout(s: seq<Batch>, k: nat)
    requires k < |s|
    ensures Sum(Quantities(s)) == Sum(Quantities(Without(s, k))) + s[k].quantity
  {
    var front, back := Quantities(s[..k]), Quantities(s[k + 1..]);
    assert Quantities(s) == (front + [s[k].quantity]) + back;
    assert Quantities(Without(s, k)) == front + back;
    SumConcat(front + [s[k].quantity], back);
    SumConcat(front, back);
    SumAppend(front, s[k].quantity);
  }

  lemma MultisetWithout(s: seq<Batch>, k: nat)
    requires k < |s|
    ensures multiset(Without(s, k)) == multiset(s) - multiset{s[k]}
  {
    assert s == s[..k] + [s[k]] + s[k + 1..];
  }

  lemma {:induction false} SumOfPermutation(a: seq<Batch>, b: seq<Batch>)
    requires multiset(a) == multiset(b)
    ensures Sum(Quantities(a)) == Sum(Quantities(b))
    decreases |a|
  {
    if a == [] {
      assert |multiset(b)| == 0;
    } else {
      assert a[0] in multiset(b);
      var k :| 0 <= k < |b| && b[k] == a[0];
      MultisetWithout(a, 0);
      MultisetWithout(b, k);
      SumOfPermutation(Without(a, 0), Without(b, k));
      SumWithout(a, 0);
      SumWithout(b, k);
    }
  }

  lemma {:induction false} TakenFromAbsent(id: int, batches: seq<Batch>, taken: seq<int>)
    requires |taken| == |batches| && forall i :: 0 <= i < |batches| ==> batches[i].id != id
    ensures TakenFrom(id, batches, taken) == 0
  {
    if batches != [] {
      TakenFromAbsent(id, batches[..|batches| - 1], taken[..|batches| - 1]);
    }
  }

  lemma {:induction false} TakenFromAt(batches: seq<Batch>, taken: seq<int>, k: nat)
    requires |taken| == |batches| && k < |batches| && DistinctIds(batches)
    ensures TakenFrom(batches[k].id, batches, taken) == taken[k]
  {
    var n := |batches| - 1;
    if k == n {
      TakenFromAbsent(batches[k].id, batches[..n], taken[..n]);
    } else {
      TakenFromAt(batches[..n], taken[..n], k);
    }
  }

  // The listed batches of a table, in an order of expiry.
  predicate InFifoOrder(batches: seq<Batch>, rows: seq<Batch>, product: ProductId, store: StoreId) {
    ByExpiry(batches) && multiset(batches) == multiset(Matching(rows, product, store))
    && (DistinctIds(rows) ==> DistinctIds(batches))
  }

  lemma FifoOrderIsListed(batches: seq<Batch>, rows: seq<Batch>, product: ProductId, store: StoreId)
    requires InFifoOrder(batches, rows, product, store)
    ensures forall b :: b in batches <==> b in rows && Listed(b, product, store)
    ensures AllPositive(Quantities(batches))
    ensures Sum(Quantities(batches)) == TotalListed(rows, product, store)
  {
    forall b ensures b in batches <==> b in rows && Listed(b, product, store) {
      MatchingIsListed(rows, product, store, b);
      assert b in batches <==> b in multiset(batches);
      assert b in Matching(rows, product, store) <==> b in multiset(Matching(rows, product, store));
    }
    forall i | 0 <= i < |batches| ensures batches[i].quantity > 0 {
      assert batches[i] in batches;
    }
    SumOfPermutation(batches, Matching(rows, product, store));
  }

  // Each row of the product in the store gives what greedy deduction takes from it and keeps the
  // rest, which is never negative; every other row is unchanged. When the stock does not cover
  // the request, every listed row ends at zero.
  lemma DeductionEffect(batches: seq<Batch>, rows: seq<Batch>, product: ProductId, store: StoreId, wanted: nat, i: nat)
    requires InFifoOrder(batches, rows, product, store) && DistinctIds(rows) && i < |rows|
    ensures
      var after := Subtract(rows, batches, Greedy(Quantities(batches), wanted));
      (!Listed(rows[i], product, store) ==> after[i] == rows[i])
      && (Listed(rows[i], product, store) ==>
            exists k :: 0 <= k < |batches| && batches[k] == rows[i]
              && after[i] == rows[i].(quantity := rows[i].quantity - Greedy(Quantities(batches), wanted)[k]))
      && (Listed(rows[i], product, store) ==> 0 <= after[i].quantity <= rows[i].quantity)
      && (Listed(rows[i], product, store) && wanted >= TotalListed(rows, product, store) ==> after[i].quantity == 0)
  {
    var available := Quantities(batches);
    var taken := Greedy(available, wanted);
    FifoOrderIsListed(batches, rows, product, store);
    GreedyTakes(available, wanted);
    if Listed(rows[i], product, store) {
      assert rows[i] in rows;
      var k :| 0 <= k < |batches| && batches[k] == rows[i];
      TakenFromAt(batches, taken, k);
      if wanted >= TotalListed(rows, product, store) {
        FullyTaken(available, taken, k);
      }
    } else {
      forall k | 0 <= k < |batches| ensures batches[k].id != rows[i].id {
        assert batches[k] in batches;
        var j :| 0 <= j < |rows| && rows[j] == batches[k];
        assert i < j || j < i;
      }
      TakenFromAbsent(rows[i].id, batches, taken);
    }
  }

  // The row can give to a deduction of the product in the store.
  predicate InStock(b: Batch, product: ProductId, store: StoreId) {
    b.product == product && b.store == store && b.quantity > 0
  }

  predicate ExpiresBefore(a: Batch, b: Batch) {
    a.expiry.Some? && (b.expiry.None? || a.expiry.value < b.expiry.value)
  }

  // The stock that expires earlier is used up first: where a row has given something, every row
  // with an earlier date, or with a date where that one has none, is empty.
  predicate EarlierAreEmptied(before: seq<Batch>, after: seq<Batch>, product: ProductId, store: StoreId)
    requires |after| == |before|
  {
    forall i, j ::
      0 <= i < |before| && 0 <= j < |before|
      && InStock(before[i], product, store) && after[i].quantity < before[i].quantity
      && InStock(before[j], product, store) && ExpiresBefore(before[j], before[i])
      ==> after[j].quantity == 0
  }

  // No listed batch comes after one that expires later.
  predicate EarliestFirst(batches: seq<Batch>) {
    forall i, j :: 0 <= i < j < |batches| ==> !ExpiresBefore(batches[j], batches[i])
  }

  lemma FifoIsEarliestFirst(batches: seq<Batch>, rows: seq<Batch>, product: ProductId, store: StoreId)
    requires InFifoOrder(batches, rows, product, store)
    ensures EarliestFirst(batches)
    ensures forall b :: b in batches <==> b in rows && InStock(b, product, store)
  {
    FifoOrderIsListed(batches, rows, product, store);
    forall b ensures b in batches <==> b in rows && InStock(b, product, store) {
      assert InStock(b, product, store) <==> Listed(b, product, store);
    }
  }

  // Row i of the table stands at some place of the listed batches and loses what is taken there.
  lemma PlaceOfRow(batches: seq<Batch>, rows: seq<Batch>, product: ProductId, store: StoreId, wanted: int, i: nat) returns (k: nat)
    requires InFifoOrder(batches, rows, product, store) && DistinctIds(rows) && i < |rows| && InStock(rows[i], product, store)
    ensures k < |batches| && batches[k] == rows[i]
    ensures Subtract(rows, batches, Greedy(Quantities(batches), wanted))[i].quantity
         == rows[i].quantity - Greedy(Quantities(batches), wanted)[k]
  {
    FifoIsEarliestFirst(batches, rows, product, store);
    assert rows[i] in rows;
    k :| 0 <= k < |batches| && batches[k] == rows[i];
    TakenFromAt(batches, Greedy(Quantities(batches), wanted), k);
  }

  lemma DeductionTakesEarliestFirst(batches: seq<Batch>, rows: seq<Batch>, product: ProductId, store: StoreId, wanted: int)
    requires InFifoOrder(batches, rows, product, store) && DistinctIds(rows)
    ensures EarlierAreEmptied(rows, Subtract(rows, batches, Greedy(Quantities(batches), wanted)), product, store)
  {
    var available := Quantities(batches);
    var after := Subtract(rows, batches, Greedy(available, wanted));
    FifoIsEarliestFirst(batches, rows, product, store);
    FifoOrderIsListed(batches, rows, product, store);
    forall i, j |
      0 <= i < |rows| && 0 <= j < |rows|
      && InStock(rows[i], product, store) && after[i].quantity < rows[i].quantity
      && InStock(rows[j], product, store) && ExpiresBefore(rows[j], rows[i])
      ensures after[j].quantity == 0
    {
      var k := PlaceOfRow(batches, rows, product, store, wanted, i);
      var l := PlaceOfRow(batches, rows, product, store, wanted, j);
      if wanted < 0 {
        GreedyOfNothing(available, wanted);
      }
      GreedyTouchesPrefix(available, wanted, l, k);
    }
  }

  // Taking everything takes all of each.
  lemma {:induction false} FullyTaken(available: seq<int>, taken: seq<int>, k: nat)
    requires Takes(available, taken, Sum(available)) && k < |taken|
    ensures taken[k] == available[k]
  {
    SumBelow(taken[..k], available[..k]);
    SumBelow(taken[k + 1..], available[k + 1..]);
    assert taken == taken[..k] + [taken[k]] + taken[k + 1..];
    assert available == available[..k] + [available[k]] + available[k + 1..];
    SumConcat(taken[..k] + [taken[k]], taken[k + 1..]);
    SumConcat(available[..k] + [available[k]], available[k + 1..]);
    SumAppend(taken[..k], taken[k]);
    SumAppend(available[..k], available[k]);
  }

  function WithQuantities(batches: seq<Batch>, taken: seq<int>): seq<Batch>
    requires |taken| == |batches|
  {
    seq(|batches|, i requires 0 <= i < |batches| => batches[i].(quantity := batches[i].quantity - taken[i]))
  }

  lemma {:induction false} GreedyStep(available: seq<int>, wanted: int, k: nat)
    requires k < |available|
    ensures Greedy(available, wanted)[k]
         == if wanted - Sum(Greedy(available, wanted)[..k]) <= 0 then 0
            else Min(available[k], wanted - Sum(Greedy(available, wanted)[..k]))
    decreases k
  {
    var taken := Greedy(available, wanted);
    if k > 0 {
      GreedyStep(available[1..], wanted - taken[0], k - 1);
      assert taken[..k] == [taken[0]] + Greedy(available[1..], wanted - taken[0])[..k - 1];
      SumCons(taken[0], Greedy(available[1..], wanted - taken[0])[..k - 1]);
    }
  }

  // Past the point where the request is covered nothing more is taken.
  lemma GreedyStops(available: seq<int>, wanted: int, k: nat)
    requires k <= |available| && wanted - Sum(Greedy(available, wanted)[..k]) <= 0
    requires forall i :: 0 <= i < |available| ==> available[i] >= 0
    ensures forall i :: k <= i < |available| ==> Greedy(available, wanted)[i] == 0
    ensures Sum(Greedy(available, wanted)) == Sum(Greedy(available, wanted)[..k])
    decreases |available| - k
  {
    var taken := Greedy(available, wanted);
    if k < |available| {
      GreedyStep(available, wanted, k);
      assert taken[..k + 1] == taken[..k] + [taken[k]];
      SumAppend(taken[..k], taken[k]);
      GreedyStops(available, wanted, k + 1);
    } else {
      assert taken[..k] == taken;
    }
  }

  lemma SubtractNothingMore(rows: seq<Batch>, batches: seq<Batch>, taken: seq<int>, k: nat)
    requires |taken| == |batches| && k <= |taken| && forall i :: k <= i < |taken| ==> taken[i] == 0
    ensures Subtract(rows, batches, taken) == Subtract(rows, batches[..k], taken[..k])
    decreases |batches| - k
  {
    if k < |batches| {
      SubtractNothingMore(rows, batches, taken, k + 1);
      assert batches[..k + 1][..k] == batches[..k] && taken[..k + 1][..k] == taken[..k];
    } else {
      assert batches[..k] == batches && taken[..k] == taken;
    }
  }

  // One more row of the table, put in its place if the query lists it.
  function Place(batches: seq<Batch>, row: Batch, product: ProductId, store: StoreId): seq<Batch>
    requires ByExpiry(batches)
  {
    if Listed(row, product, store) then InsertByExpiry(row, batches) else batches
  }

  lemma NewIdAmongListed(rows: seq<Batch>, i: nat, batches: seq<Batch>, product: ProductId, store: StoreId, k: nat)
    requires i < |rows| && DistinctIds(rows[..i + 1]) && k < |batches|
    requires multiset(batches) == multiset(Matching(rows[..i], product, store))
    ensures batches[k].id != rows[i].id
  {
    assert batches[k] in multiset(batches);
    MatchingIsListed(rows[..i], product, store, batches[k]);
    var j :| 0 <= j < i && rows[j] == batches[k];
    assert rows[..i + 1][j] == batches[k] && rows[..i + 1][i] == rows[i];
  }

  lemma PlaceKeepsDistinct(rows: seq<Batch>, i: nat, batches: seq<Batch>, product: ProductId, store: StoreId)
    requires i < |rows| && InFifoOrder(batches, rows[..i], product, store) && DistinctIds(rows[..i + 1])
    ensures DistinctIds(Place(batches, rows[i], product, store))
  {
    assert DistinctIds(rows[..i]) by {
      assert forall k :: 0 <= k < i ==> rows[..i][k] == rows[..i + 1][k];
    }
    if Listed(rows[i], product, store) {
      forall k | 0 <= k < |batches| ensures batches[k].id != rows[i].id {
        NewIdAmongListed(rows, i, batches, product, store, k);
      }
      InsertKeepsDistinct(rows[i], batches);
    }
  }

  lemma OneMoreRow(rows: seq<Batch>, i: nat, batches: seq<Batch>, product: ProductId, store: StoreId)
    requires i < |rows| && InFifoOrder(batches, rows[..i], product, store)
    ensures InFifoOrder(Place(batches, rows[i], product, store), rows[..i + 1], product, store)
  {
    assert rows[..i + 1][..i] == rows[..i];
    if DistinctIds(rows[..i + 1]) {
      PlaceKeepsDistinct(rows, i, batches, product, store);
    }
  }

  lemma SubtractOneMore(rows: seq<Batch>, now: seq<Batch>, batches: seq<Batch>, taken: seq<int>, i: nat)
    requires |taken| == |batches| && i < |batches| && |now| == |rows|
    requires forall k :: 0 <= k < |rows| ==>
      now[k] == var row := Subtract(rows, batches[..i], taken[..i])[k];
                if row.id == batches[i].id then row.(quantity := row.quantity - taken[i]) else row
    ensures now == Subtract(rows, batches[..i + 1], taken[..i + 1])
  {
    assert batches[..i + 1][..i] == batches[..i] && taken[..i + 1][..i] == taken[..i];
  }

  lemma TouchedOneMore(listed: seq<Batch>, taken: seq<int>, i: nat)
    requires |taken| == |listed| && i < |listed|
    ensures WithQuantities(listed, taken)[..i + 1]
         == WithQuantities(listed, taken)[..i] + [listed[i].(quantity := listed[i].quantity - taken[i])]
  {
  }

  lemma GreedyNext(available: seq<int>, wanted: int, i: nat, remaining: int)
    requires i < |available| && remaining > 0
    requires remaining == wanted - Sum(Greedy(available, wanted)[..i])
    ensures Greedy(available, wanted)[i] == Min(available[i], remaining)
    ensures remaining - Min(available[i], remaining) == wanted - Sum(Greedy(available, wanted)[..i + 1])
  {
    var taken := Greedy(available, wanted);
    GreedyStep(available, wanted, i);
    assert taken[..i + 1] == taken[..i] + [taken[i]];
    SumAppend(taken[..i], taken[i]);
  }

  /******* Merging batches *******/

  function TotalQuantity(rows: seq<Batch>): int {
    if rows == [] then 0 else TotalQuantity(rows[..|rows| - 1]) + rows[|rows| - 1].quantity
  }

  // The cost of a number of units, added up unit by unit.
  function Worth(cost: real, units: int): (w: real)
    decreases if units < 0 then -units else units
  {
    if units == 0 then 0.0
    else if units > 0 then Worth(cost, units - 1) + cost
    else Worth(cost, units + 1) - cost
  }

  lemma {:induction false} WorthIsProduct(cost: real, units: int)
    ensures Worth(cost, units) == cost * units as real
    decreases if units < 0 then -units else units
  {
    if units > 0 {
      WorthIsProduct(cost, units - 1);
    } else if units < 0 {
      WorthIsProduct(cost, units + 1);
    }
  }

  function Value(b: Batch): real {
    Worth(b.cost, b.quantity)
  }

  function TotalValue(rows: seq<Batch>): real {
    if rows == [] then 0.0 else TotalValue(rows[..|rows| - 1]) + Value(rows[|rows| - 1])
  }

  function IdSet(ids: seq<int>): set<int> {
    set id | id in ids :: id
  }

  // SELECT * .. WHERE id = ANY(ids)
  function Chosen(rows: seq<Batch>, ids: set<int>): seq<Batch> {
    if rows == [] then []
    else Chosen(rows[..|rows| - 1], ids) + if rows[|rows| - 1].id in ids then [rows[|rows| - 1]] else []
  }

  // DELETE .. WHERE id = ANY(ids)
  function Remaining(rows: seq<Batch>, ids: set<int>): seq<Batch> {
    if rows == [] then []
    else Remaining(rows[..|rows| - 1], ids) + if rows[|rows| - 1].id in ids then [] else [rows[|rows| - 1]]
  }

  // UPDATE .. SET quantity = quantity + moved, cost = cost WHERE id = target
  function Receive(rows: seq<Batch>, target: int, moved: int, cost: real): (out: seq<Batch>)
    ensures |out| == |rows|
  {
    seq(|rows|, i requires 0 <= i < |rows| =>
      if rows[i].id == target then rows[i].(quantity := rows[i].quantity + moved, cost := cost) else rows[i])
  }

  function AverageCost(sources: seq<Batch>): real {
    if TotalQuantity(sources) > 0 then TotalValue(sources) / TotalQuantity(sources) as real else 0.0
  }

  function Merged(rows: seq<Batch>, target: int, ids: set<int>): seq<Batch> {
    var sources := Chosen(rows, ids);
    Remaining(Receive(rows, target, TotalQuantity(sources), AverageCost(sources)), ids)
  }

  function Find(rows: seq<Batch>, id: int): Option<Batch> {
    if rows == [] then None
    else if rows[|rows| - 1].id == id then Some(rows[|rows| - 1])
    else Find(rows[..|rows| - 1], id)
  }

  predicate HasRow(rows: seq<Batch>, id: int) {
    exists i :: 0 <= i < |rows| && rows[i].id == id
  }

  predicate NoneNegative(rows: seq<Batch>) {
    forall i :: 0 <= i < |rows| ==> rows[i].quantity >= 0
  }

  // The sums over the rows that are not among the ids.
  function KeptQuantity(rows: seq<Batch>, ids: set<int>): int {
    if rows == [] then 0
    else KeptQuantity(rows[..|rows| - 1], ids) + if rows[|rows| - 1].id in ids then 0 else rows[|rows| - 1].quantity
  }

  function KeptValue(rows: seq<Batch>, ids: set<int>): real {
    if rows == [] then 0.0
    else KeptValue(rows[..|rows| - 1], ids) + if rows[|rows| - 1].id in ids then 0.0 else Value(rows[|rows| - 1])
  }

  lemma TotalsAppend(s: seq<Batch>, b: Batch)
    ensures TotalQuantity(s + [b]) == TotalQuantity(s) + b.quantity
    ensures TotalValue(s + [b]) == TotalValue(s) + Value(b)
  {
    assert (s + [b])[..|s|] == s;
  }

  lemma {:induction false} SplitQuantity(rows: seq<Batch>, ids: set<int>)
    ensures TotalQuantity(Remaining(rows, ids)) == KeptQuantity(rows, ids)
    ensures TotalQuantity(rows) == TotalQuantity(Chosen(rows, ids)) + KeptQuantity(rows, ids)
  {
    if rows != [] {
      var front, last := rows[..|rows| - 1], rows[|rows| - 1];
      SplitQuantity(front, ids);
      if last.id in ids {
        assert Remaining(rows, ids) == Remaining(front, ids);
        TotalsAppend(Chosen(front, ids), last);
      } else {
        assert Chosen(rows, ids) == Chosen(front, ids);
        TotalsAppend(Remaining(front, ids), last);
      }
    }
  }

  lemma {:induction false} SplitValue(rows: seq<Batch>, ids: set<int>)
    ensures TotalValue(Remaining(rows, ids)) == KeptValue(rows, ids)
    ensures TotalValue(rows) == TotalValue(Chosen(rows, ids)) + KeptValue(rows, ids)
  {
    if rows != [] {
      var front, last := rows[..|rows| - 1], rows[|rows| - 1];
      SplitValue(front, ids);
      if last.id in ids {
        assert Remaining(rows, ids) == Remaining(front, ids);
        TotalsAppend(Chosen(front, ids), last);
      } else {
        assert Chosen(rows, ids) == Chosen(front, ids);
        TotalsAppend(Remaining(front, ids), last);
      }
    }
  }

  lemma {:induction false} KeptUpdate(rows: seq<Batch>, t: nat, row: Batch, ids: set<int>)
    requires t < |rows| && row.id == rows[t].id
    ensures KeptQuantity(rows[t := row], ids)
         == KeptQuantity(rows, ids) + if row.id in ids then 0 else row.quantity - rows[t].quantity
    ensures KeptValue(rows[t := row], ids)
         == KeptValue(rows, ids) + if row.id in ids then 0.0 else Value(row) - Value(rows[t])
  {
    var n := |rows| - 1;
    if t == n {
      assert rows[t := row][..n] == rows[..n];
    } else {
      assert rows[t := row][..n] == rows[..n][t := row];
      KeptUpdate(rows[..n], t, row, ids);
    }
  }

  lemma ReceiveIsUpdate(rows: seq<Batch>, t: nat, moved: int, cost: real)
    requires DistinctIds(rows) && t < |rows|
    ensures Receive(rows, rows[t].id, moved, cost)
         == rows[t := rows[t].(quantity := rows[t].quantity + moved, cost := cost)]
  {
    assert forall i :: 0 <= i < |rows| && i != t ==> rows[i].id != rows[t].id;
  }

  // A merge keeps the total quantity exactly when nothing was moved or the target exists and is
  // not one of the sources; otherwise the moved quantity is lost.
  lemma MergeConservesQuantityIff(rows: seq<Batch>, target: int, ids: set<int>)
    requires DistinctIds(rows)
    ensures
      var moved := TotalQuantity(Chosen(rows, ids));
      var kept := HasRow(rows, target) && target !in ids;
      TotalQuantity(Merged(rows, target, ids)) == TotalQuantity(rows) - (if kept then 0 else moved)
      && (TotalQuantity(Merged(rows, target, ids)) == TotalQuantity(rows) <==> moved == 0 || kept)
  {
    var sources := Chosen(rows, ids);
    var moved, cost := TotalQuantity(sources), AverageCost(sources);
    var received := Receive(rows, target, moved, cost);
    SplitQuantity(rows, ids);
    SplitQuantity(received, ids);
    if HasRow(rows, target) {
      var t :| 0 <= t < |rows| && rows[t].id == target;
      ReceiveIsUpdate(rows, t, moved, cost);
      KeptUpdate(rows, t, rows[t].(quantity := rows[t].quantity + moved, cost := cost), ids);
    } else {
      assert received == rows;
    }
  }

  lemma {:induction false} NothingChosenNoValue(sources: seq<Batch>)
    requires NoneNegative(sources)
    ensures TotalQuantity(sources) >= 0
    ensures TotalQuantity(sources) == 0 ==> TotalValue(sources) == 0.0
  {
    if sources != [] {
      NothingChosenNoValue(sources[..|sources| - 1]);
    }
  }

  lemma {:induction false} ChosenFrom(rows: seq<Batch>, ids: set<int>, i: nat)
    requires i < |Chosen(rows, ids)|
    ensures Chosen(rows, ids)[i] in rows && Chosen(rows, ids)[i].id in ids
  {
    var n := |rows| - 1;
    if i < |Chosen(rows[..n], ids)| {
      ChosenFrom(rows[..n], ids, i);
    }
  }

  lemma AverageWorth(sources: seq<Batch>)
    requires NoneNegative(sources)
    ensures Worth(AverageCost(sources), TotalQuantity(sources)) == TotalValue(sources)
  {
    NothingChosenNoValue(sources);
    if TotalQuantity(sources) > 0 {
      QuotientWorth(TotalValue(sources), TotalQuantity(sources));
    }
  }

  lemma QuotientWorth(value: real, units: int)
    requires units > 0
    ensures Worth(value / units as real, units) == value
  {
    WorthIsProduct(value / units as real, units);
  }

  lemma WorthOfSum(cost: real, a: int, b: int)
    ensures Worth(cost, a + b) == Worth(cost, a) + Worth(cost, b)
  {
    WorthIsProduct(cost, a);
    WorthIsProduct(cost, b);
    WorthIsProduct(cost, a + b);
    Distribute(cost, a as real, b as real);
    assert (a + b) as real == a as real + b as real;
  }

  lemma Distribute(x: real, a: real, b: real)
    ensures x * (a + b) == x * a + x * b
  {
  }

  // Two costs of one quantity are equal exactly when the unit costs are or there is nothing.
  lemma WorthEqualIff(a: real, b: real, units: int)
    ensures Worth(a, units) == Worth(b, units) <==> units == 0 || a == b
  {
    WorthIsProduct(a, units);
    WorthIsProduct(b, units);
    assert a * units as real - b * units as real == (a - b) * units as real;
  }

  lemma WorthOrder(a: real, b: real, units: nat)
    ensures units > 0 ==> (a <= b <==> Worth(a, units) <= Worth(b, units))
    ensures a <= b ==> Worth(a, units) <= Worth(b, units)
  {
    WorthIsProduct(a, units);
    WorthIsProduct(b, units);
    assert b * units as real - a * units as real == (b - a) * units as real;
  }

  // The target's own cost is overwritten by the average of the sources, so the total value is
  // kept exactly when the target held nothing or already had that cost.
  lemma MergeConservesValueIff(rows: seq<Batch>, t: nat, ids: set<int>)
    requires DistinctIds(rows) && NoneNegative(rows) && t < |rows| && rows[t].id !in ids
    ensures
      var average := AverageCost(Chosen(rows, ids));
      var after := TotalValue(Merged(rows, rows[t].id, ids));
      after == TotalValue(rows) - Value(rows[t]) + Worth(average, rows[t].quantity)
      && (after == TotalValue(rows) <==> rows[t].quantity == 0 || rows[t].cost == average)
  {
    var sources := Chosen(rows, ids);
    forall i | 0 <= i < |sources| ensures sources[i].quantity >= 0 {
      ChosenFrom(rows, ids, i);
    }
    var moved, average := TotalQuantity(sources), AverageCost(sources);
    var row := rows[t].(quantity := rows[t].quantity + moved, cost := average);
    var received := Receive(rows, rows[t].id, moved, average);
    var after, kept := TotalValue(Merged(rows, rows[t].id, ids)), KeptValue(rows, ids);
    assert TotalValue(rows) == TotalValue(sources) + kept by {
      SplitValue(rows, ids);
    }
    assert after == kept + Value(row) - Value(rows[t]) by {
      SplitValue(received, ids);
      ReceiveIsUpdate(rows, t, moved, average);
      KeptUpdate(rows, t, row, ids);
    }
    assert Value(row) == Worth(average, rows[t].quantity) + TotalValue(sources) by {
      WorthOfSum(average, rows[t].quantity, moved);
      AverageWorth(sources);
    }
    WorthEqualIff(average, rows[t].cost, rows[t].quantity);
  }

  lemma {:induction false} ValueBounds(sources: seq<Batch>, low: real, high: real)
    requires NoneNegative(sources)
    requires forall i :: 0 <= i < |sources| ==> low <= sources[i].cost <= high
    ensures Worth(low, TotalQuantity(sources)) <= TotalValue(sources) <= Worth(high, TotalQuantity(sources))
  {
    if sources != [] {
      var n := |sources| - 1;
      ValueBounds(sources[..n], low, high);
      WorthOrder(low, sources[n].cost, sources[n].quantity);
      WorthOrder(sources[n].cost, high, sources[n].quantity);
      WorthOfSum(low, TotalQuantity(sources[..n]), sources[n].quantity);
      WorthOfSum(high, TotalQuantity(sources[..n]), sources[n].quantity);
    }
  }

  // The cost that is written lies between the lowest and the highest cost of the sources.
  lemma AverageIsBetween(sources: seq<Batch>, low: real, high: real)
    requires NoneNegative(sources) && TotalQuantity(sources) > 0
    requires forall i :: 0 <= i < |sources| ==> low <= sources[i].cost <= high
    ensures low <= AverageCost(sources) <= high
  {
    var average, units := AverageCost(sources), TotalQuantity(sources);
    ValueBounds(sources, low, high);
    AverageWorth(sources);
    WorthOrder(low, average, units);
    WorthOrder(average, high, units);
  }

  // A merge into a missing target, or into one of the sources, loses all that the sources were worth.
  lemma LostMergeLosesValue(rows: seq<Batch>, target: int, ids: set<int>)
    requires DistinctIds(rows) && (!HasRow(rows, target) || target in ids)
    ensures TotalValue(Merged(rows, target, ids)) == TotalValue(rows) - TotalValue(Chosen(rows, ids))
  {
    var moved, cost := TotalQuantity(Chosen(rows, ids)), AverageCost(Chosen(rows, ids));
    ReceiveKeepsTheRest(rows, target, ids, moved, cost);
    assert TotalValue(Merged(rows, target, ids)) == KeptValue(rows, ids) by {
      SplitValue(Receive(rows, target, moved, cost), ids);
    }
    SplitValue(rows, ids);
  }

  lemma ReceiveKeepsTheRest(rows: seq<Batch>, target: int, ids: set<int>, moved: int, cost: real)
    requires DistinctIds(rows) && (!HasRow(rows, target) || target in ids)
    ensures KeptValue(Receive(rows, target, moved, cost), ids) == KeptValue(rows, ids)
  {
    if HasRow(rows, target) {
      var t :| 0 <= t < |rows| && rows[t].id == target;
      ReceiveIsUpdate(rows, t, moved, cost);
      KeptUpdate(rows, t, rows[t].(quantity := rows[t].quantity + moved, cost := cost), ids);
    } else {
      assert Receive(rows, target, moved, cost) == rows;
    }
  }

  /******* The quantity column, and decimal text *******/

  // A column of integers reaches the service as numbers, one of decimals as text.
  datatype Column = Integers | Decimals

  function DigitChar(d: nat): char
    requires d < 10
  {
    '0' + d as char
  }

  function Digits(n: nat): string {
    if n < 10 then [DigitChar(n)] else Digits(n / 10) + [DigitChar(n % 10)]
  }

  function DecimalText(hundredths: int): string {
    var n := if hundredths < 0 then -hundredths else hundredths;
    (if hundredths < 0 then "-" else "") + (Digits(n / 100) + ("." + [DigitChar(n / 10 % 10), DigitChar(n % 10)]))
  }

  // `totalQuantity`: the number 0, or what `+=` with a text has made of it.
  datatype Total = Zero | Joined(text: string)

  function AddText(total: Total, text: string): Total {
    Joined((if total.Zero? then "0" else total.text) + text)
  }

  function JoinedTexts(sources: seq<Batch>): Total {
    if sources == [] then Zero
    else AddText(JoinedTexts(sources[..|sources| - 1]), DecimalText(sources[|sources| - 1].quantity))
  }

  predicate IsDigit(c: char) {
    '0' <= c <= '9'
  }

  // The digits of an unsigned numeral, and how many of them follow its point, if it has one.
  function ReadFrom(text: string, n: nat, scale: Option<nat>): Option<(nat, nat)> {
    if text == "" then Some((n, if scale.Some? then scale.value else 0))
    else if IsDigit(text[0]) then
      ReadFrom(text[1..], 10 * n + (text[0] - '0') as nat, if scale.Some? then Some(scale.value + 1) else None)
    else if text[0] == '.' && scale.None? then ReadFrom(text[1..], n, Some(0))
    else None
  }

  // The number that a total stands for, to a comparison and to an UPDATE. A joined text starts
  // with a digit, so a sign further on makes it no number.
  function NumberOf(total: Total): Option<int> {
    match total
    case Zero => Some(0)
    case Joined(text) =>
      match ReadFrom(text, 0, None)
      case None => None
      case Some((n, scale)) => if scale == 2 then Some(n) else None
  }

  lemma {:induction false} ReadDigits(m: nat, rest: string)
    ensures ReadFrom(Digits(m) + rest, 0, None) == ReadFrom(rest, m, None)
  {
    var d := DigitChar(m % 10);
    if m < 10 {
      assert (Digits(m) + rest)[1..] == rest;
    } else {
      ReadDigits(m / 10, [d] + rest);
      assert Digits(m) + rest == Digits(m / 10) + ([d] + rest);
      assert ([d] + rest)[1..] == rest;
    }
  }

  // Behind a point, anything but digits ends all reading.
  lemma {:induction false} NoSecondPoint(text: string, n: nat, scale: nat, i: nat)
    requires i < |text| && !IsDigit(text[i])
    ensures ReadFrom(text, n, Some(scale)) == None
  {
    if IsDigit(text[0]) {
      NoSecondPoint(text[1..], 10 * n + (text[0] - '0') as nat, scale + 1, i - 1);
    }
  }

  // "0" and a decimal text, and what follows.
  lemma ReadDecimal(hundredths: int, rest: string)
    ensures ReadFrom("0" + (DecimalText(hundredths) + rest), 0, None)
         == if hundredths < 0 then None else ReadFrom(rest, hundredths, Some(2))
  {
    var text := DecimalText(hundredths) + rest;
    assert ("0" + text)[1..] == text;
    if hundredths < 0 {
      assert text[0] == '-';
    } else {
      var d, e := hundredths / 10 % 10, hundredths % 10;
      var tail := "." + ([DigitChar(d)] + ([DigitChar(e)] + rest));
      assert text == Digits(hundredths / 100) + tail;
      assert tail[1..] == [DigitChar(d)] + ([DigitChar(e)] + rest);
      ReadDigits(hundredths / 100, tail);
      ReadDigit(d, [DigitChar(e)] + rest, hundredths / 100, 0);
      ReadDigit(e, rest, 10 * (hundredths / 100) + d, 1);
      HundredthsSplit(hundredths);
    }
  }

  lemma ReadDigit(d: nat, rest: string, n: nat, scale: nat)
    requires d < 10
    ensures ReadFrom([DigitChar(d)] + rest, n, Some(scale)) == ReadFrom(rest, 10 * n + d, Some(scale + 1))
  {
    assert ([DigitChar(d)] + rest)[1..] == rest;
  }

  lemma HundredthsSplit(n: nat)
    ensures 10 * (10 * (n / 100) + n / 10 % 10) + n % 10 == n
  {
  }

  // The joined text begins with the first quantity's, and holds a point for every further one.
  lemma {:induction false} JoinedBegins(sources: seq<Batch>) returns (rest: string)
    requires sources != []
    ensures JoinedTexts(sources) == Joined("0" + (DecimalText(sources[0].quantity) + rest))
    ensures if |sources| == 1 then rest == "" else exists i :: 0 <= i < |rest| && !IsDigit(rest[i])
  {
    var n := |sources| - 1;
    var last := DecimalText(sources[n].quantity);
    if n == 0 {
      rest := "";
      assert sources[..0] == [] && "0" + (last + rest) == "0" + last;
    } else {
      var front := JoinedBegins(sources[..n]);
      rest := front + last;
      assert ("0" + (DecimalText(sources[0].quantity) + front)) + last == "0" + (DecimalText(sources[0].quantity) + rest);
      var point := |rest| - 3;
      assert rest[point] == last[|last| - 3] == '.';
    }
  }

  predicate TextAddsUp(sources: seq<Batch>) {
    |sources| == 0 || (|sources| == 1 && sources[0].quantity >= 0)
  }

  // Adding up decimal texts gives a number, and then the right one, exactly when there is no
  // source, or one whose quantity is not negative.
  lemma JoinedIsTotalIff(sources: seq<Batch>)
    ensures NumberOf(JoinedTexts(sources)) == if TextAddsUp(sources) then Some(TotalQuantity(sources)) else None
  {
    if sources != [] {
      var rest := JoinedBegins(sources);
      ReadDecimal(sources[0].quantity, rest);
      if |sources| == 1 {
        assert sources[..0] == [];
      } else if sources[0].quantity >= 0 {
        var i :| 0 <= i < |rest| && !IsDigit(rest[i]);
        NoSecondPoint(rest, sources[0].quantity, 2, i);
      }
    }
  }

  lemma Covered(available: seq<int>, wanted: int)
    requires AllPositive(available)
    ensures wanted > 0 ==> Sum(Greedy(available, wanted)) == Min(wanted, Sum(available))
    ensures wanted <= 0 ==> Sum(Greedy(available, wanted)) == 0 && Sum(available) >= 0
  {
    SumNonNegative(available);
    if wanted > 0 {
      GreedyTakes(available, wanted);
    } else {
      GreedyStops(available, wanted, 0);
    }
  }

  // Where the loop ends, either the request is covered or every batch has been drained.
  lemma LoopDone(rows: seq<Batch>, listed: seq<Batch>, wanted: int, i: nat, remaining: int)
    requires AllPositive(Quantities(listed)) && i <= |listed|
    requires remaining == wanted - Sum(Greedy(Quantities(listed), wanted)[..i])
    requires i == |listed| || remaining <= 0
    ensures
      var taken := Greedy(Quantities(listed), wanted);
      Subtract(rows, listed[..i], taken[..i]) == Subtract(rows, listed, taken)
      && (remaining > 0 <==> wanted > 0 && wanted > Sum(Quantities(listed)))
      && (remaining <= 0 ==> forall k :: i <= k < |listed| ==> taken[k] == 0)
  {
    var available := Quantities(listed);
    var taken := Greedy(available, wanted);
    Covered(available, wanted);
    if remaining > 0 {
      assert listed[..i] == listed && taken[..i] == taken;
    } else {
      GreedyStops(available, wanted, i);
      SubtractNothingMore(rows, listed, taken, i);
    }
  }

  datatype MergeError = NotANumber

  datatype Deduction = Deducted(touched: seq<Batch>) | Insufficient

  class BatchService {
    var rows: seq<Batch>

    constructor (initial: seq<Batch>)
      ensures rows == initial
    {
      rows := initial;
    }

    // SELECT * .. WHERE product_id AND store_id AND quantity > 0 ORDER BY expiry_date ASC
    method GetProductBatchesForFIFO(product: ProductId, store: StoreId) returns (batches: seq<Batch>)
      ensures InFifoOrder(batches, rows, product, store)
      ensures EarliestFirst(batches) && forall b :: b in batches <==> b in rows && InStock(b, product, store)
    {
      batches := [];
      for i := 0 to |rows|
        invariant InFifoOrder(batches, rows[..i], product, store)
      {
        OneMoreRow(rows, i, batches, product, store);
        batches := Place(batches, rows[i], product, store);
      }
      assert rows[..|rows|] == rows;
      FifoIsEarliestFirst(batches, rows, product, store);
    }

    // UPDATE batch_inventory SET quantity = quantity - amount WHERE id = ..
    method TakeFromRow(id: int, amount: int)
      modifies this
      ensures |rows| == |old(rows)|
      ensures forall i :: 0 <= i < |rows| ==>
                rows[i] == if old(rows)[i].id == id then old(rows)[i].(quantity := old(rows)[i].quantity - amount)
                           else old(rows)[i]
    {
      rows := seq(|rows|, i requires 0 <= i < |rows| reads this =>
        if rows[i].id == id then rows[i].(quantity := rows[i].quantity - amount) else rows[i]);
    }

    // The loop stops as soon as the request is covered. A request that the stock does not cover
    // fails only after every listed batch has been drained.
    method DeductFromBatch(product: ProductId, store: StoreId, quantity: int)
      returns (r: Deduction, ghost batches: seq<Batch>)
      modifies this
      ensures InFifoOrder(batches, old(rows), product, store)
      ensures rows == Subtract(old(rows), batches, Greedy(Quantities(batches), quantity))
      ensures |rows| == |old(rows)| && (DistinctIds(old(rows)) ==> EarlierAreEmptied(old(rows), rows, product, store))
      ensures r.Insufficient? <==> quantity > Sum(Quantities(batches)) && quantity > 0
      ensures r.Deducted? ==>
                |r.touched| <= |batches|
                && r.touched == WithQuantities(batches, Greedy(Quantities(batches), quantity))[..|r.touched|]
                && forall i :: |r.touched| <= i < |batches| ==> Greedy(Quantities(batches), quantity)[i] == 0
    {
      var listed := GetProductBatchesForFIFO(product, store);
      batches := listed;
      FifoOrderIsListed(listed, rows, product, store);
      ghost var available := Quantities(listed);
      ghost var taken := Greedy(available, quantity);
      var touched: seq<Batch> := [];
      var remaining := quantity;
      var i := 0;
      while i < |listed| && remaining > 0
        invariant 0 <= i <= |listed|
        invariant remaining == quantity - Sum(taken[..i])
        invariant rows == Subtract(old(rows), listed[..i], taken[..i])
        invariant |touched| == i && touched == WithQuantities(listed, taken)[..i]
      {
        var deductAmount := Min(listed[i].quantity, remaining);
        GreedyNext(available, quantity, i, remaining);
        TakeFromRow(listed[i].id, deductAmount);
        SubtractOneMore(old(rows), rows, listed, taken, i);
        TouchedOneMore(listed, taken, i);
        touched := touched + [listed[i].(quantity := listed[i].quantity - deductAmount)];
        remaining := remaining - deductAmount;
        i := i + 1;
      }
      LoopDone(old(rows), listed, quantity, i, remaining);
      if DistinctIds(old(rows)) {
        DeductionTakesEarliestFirst(listed, old(rows), product, store, quantity);
      }
      r := if remaining > 0 then Insufficient else Deducted(touched);
    }

    // Returns the target as it was updated, which need not be in the table any more. Where
    // quantities are decimals, `+=` joins their texts, and the UPDATE refuses what is no number:
    // then nothing is changed.
    method MergeBatches(column: Column, target: int, sourceIds: seq<int>) returns (r: Result<Option<Batch>, MergeError>)
      requires DistinctIds(rows)
      modifies this
      ensures r.Err? <==> column == Decimals && !TextAddsUp(Chosen(old(rows), IdSet(sourceIds)))
      ensures r.Err? ==> rows == old(rows)
      ensures r.Ok? ==>
                var ids := IdSet(sourceIds);
                rows == Merged(old(rows), target, ids)
                && r.value == Find(Receive(old(rows), target, TotalQuantity(Chosen(old(rows), ids)),
                                           AverageCost(Chosen(old(rows), ids))), target)
    {
      var ids := IdSet(sourceIds);
      var sources := Chosen(rows, ids);
      var total, totalCost := AddUp(column, sources);
      if total.None? {
        return Err(NotANumber);
      }
      var averageCost := if total.value > 0 then totalCost / total.value as real else 0.0;
      rows := Receive(rows, target, total.value, averageCost);
      r := Ok(Find(rows, target));
      rows := Remaining(rows, ids);
    }
  }

  lemma OneMoreSource(sources: seq<Batch>, i: nat)
    requires i < |sources|
    ensures TotalQuantity(sources[..i + 1]) == TotalQuantity(sources[..i]) + sources[i].quantity
    ensures TotalValue(sources[..i + 1]) == TotalValue(sources[..i]) + sources[i].cost * sources[i].quantity as real
    ensures JoinedTexts(sources[..i + 1]) == AddText(JoinedTexts(sources[..i]), DecimalText(sources[i].quantity))
  {
    assert sources[..i + 1][..i] == sources[..i];
    WorthIsProduct(sources[i].cost, sources[i].quantity);
  }

  // The loop over the sources; what it adds up may be no number.
  method AddUp(column: Column, sources: seq<Batch>) returns (total: Option<int>, cost: real)
    ensures total == if column == Integers || TextAddsUp(sources) then Some(TotalQuantity(sources)) else None
    ensures cost == TotalValue(sources)
  {
    var quantity, text := 0, Zero;
    cost := 0.0;
    for i := 0 to |sources|
      invariant quantity == if column == Integers then TotalQuantity(sources[..i]) else 0
      invariant text == if column == Decimals then JoinedTexts(sources[..i]) else Zero
      invariant cost == TotalValue(sources[..i])
    {
      OneMoreSource(sources, i);
      if column == Integers {
        quantity := quantity + sources[i].quantity;
      } else {
        text := AddText(text, DecimalText(sources[i].quantity));
      }
      var worth := sources[i].cost * sources[i].quantity as real;
      cost := cost + worth;
    }
    assert sources[..|sources|] == sources;
    JoinedIsTotalIff(sources);
    total := if column == Integers then Some(quantity) else NumberOf(text);
  }
}
