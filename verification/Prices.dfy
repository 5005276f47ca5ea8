// Price rows: an update closes the active row of its scope and opens a new one, and the admin
// panel and the checkout look the current price up with differently written queries.
module Prices {
  import opened Basics
  import opened Identifiers

  // A product's price at one store, or for the whole organization.
  datatype Scope = Scope(product: ProductId, store: Option<StoreId>)

  datatype PriceRow = PriceRow(scope: Scope, price: nat, active: bool, validFrom: int, validTo: Option<int>)

  datatype Update = Update(scope: Scope, price: nat, at: int)

  function Close(row: PriceRow, scope: Scope, now: int): PriceRow {
    if row.scope == scope && row.active then row.(active := false, validTo := Some(now)) else row
  }

  function CloseScope(rows: seq<PriceRow>, scope: Scope, now: int): (closed: seq<PriceRow>)
    ensures |closed| == |rows|
  {
    seq(|rows|, i requires 0 <= i < |rows| => Close(rows[i], scope, now))
  }

  function Apply(rows: seq<PriceRow>, u: Update): (rows': seq<PriceRow>)
    ensures |rows'| == |rows| + 1
  {
    CloseScope(rows, u.scope, u.at) + [PriceRow(u.scope, u.price, true, u.at, None)]
  }

  class PriceTable {
    var rows: seq<PriceRow>

    constructor ()
      ensures rows == []
    {
      rows := [];
    }

    // The transaction of one update: an UPDATE of the rows it matches, then an INSERT.
    method UpdatePrice(product: ProductId, store: Option<StoreId>, price: nat, now: int)
      modifies this
      ensures rows == Apply(old(rows), Update(Scope(product, store), price, now))
    {
      var table := rows;
      var closed := seq(|table|, i requires 0 <= i < |table| =>
        var row := table[i];
        if row.scope.product == product && row.active
           && ((store.None? && row.scope.store.None?) || (store.Some? && row.scope.store == store))
        then row.(active := false, validTo := Some(now))
        else row);
      assert closed == CloseScope(old(rows), Scope(product, store), now);
      rows := closed + [PriceRow(Scope(product, store), price, true, now, None)];
    }
  }

  /******* What the table keeps *******/

  // A row's validity is the half-open interval from validFrom up to validTo.
  predicate Covers(row: PriceRow, t: int) {
    row.validFrom <= t && (row.validTo.None? || t < row.validTo.value)
  }

  predicate WellFormedRow(row: PriceRow, now: int) {
    row.validFrom <= now
    && (row.active <==> row.validTo.None?)
    && (row.validTo.Some? ==> row.validFrom <= row.validTo.value <= now)
  }

  // The rows of one scope follow each other without overlap.
  predicate Versioned(rows: seq<PriceRow>, now: int) {
    (forall i :: 0 <= i < |rows| ==> WellFormedRow(rows[i], now))
    && (forall i, j :: 0 <= i < j < |rows| && rows[i].scope == rows[j].scope ==>
          rows[i].validTo.Some? && rows[i].validTo.value <= rows[j].validFrom)
  }

  function ApplyAll(rows: seq<PriceRow>, us: seq<Update>): seq<PriceRow> {
    if us == [] then rows
    else Apply(ApplyAll(rows, us[..|us| - 1]), us[|us| - 1])
  }

  predicate InOrder(us: seq<Update>, from: int, now: int) {
    (forall i :: 0 <= i < |us| ==> from <= us[i].at <= now)
    && (forall i, j :: 0 <= i < j < |us| ==> us[i].at <= us[j].at)
  }

  lemma ApplyKeepsVersions(rows: seq<PriceRow>, u: Update, now: int)
    requires Versioned(rows, now) && now <= u.at
    ensures Versioned(Apply(rows, u), u.at)
  {
    var rows' := Apply(rows, u);
    forall i | 0 <= i < |rows'| ensures WellFormedRow(rows'[i], u.at) {
      if i < |rows| {
        assert WellFormedRow(rows[i], now);
      }
    }
    forall i, j | 0 <= i < j < |rows'| && rows'[i].scope == rows'[j].scope
      ensures rows'[i].validTo.Some? && rows'[i].validTo.value <= rows'[j].validFrom
    {
      assert rows'[i] == Close(rows[i], u.scope, u.at) && WellFormedRow(rows[i], now);
      if j < |rows| {
        assert rows'[j] == Close(rows[j], u.scope, u.at);
      }
    }
  }

  lemma {:induction false} UpdatesKeepVersions(rows: seq<PriceRow>, us: seq<Update>, from: int, now: int)
    requires Versioned(rows, from) && InOrder(us, from, now)
    ensures Versioned(ApplyAll(rows, us), if us == [] then from else us[|us| - 1].at)
  {
    if us != [] {
      var front := us[..|us| - 1];
      UpdatesKeepVersions(rows, front, from, now);
      ApplyKeepsVersions(ApplyAll(rows, front), us[|us| - 1], if front == [] then from else front[|front| - 1].at);
    }
  }

  // After any updates one after the other, each scope has at most one active row, and no instant
  // is covered by two of its rows.
  lemma ScopesNeverOverlap(rows: seq<PriceRow>, us: seq<Update>, from: int, now: int, i: nat, j: nat, t: int)
    requires Versioned(rows, from) && InOrder(us, from, now)
    ensures
      var rows' := ApplyAll(rows, us);
      i < j < |rows'| && rows'[i].scope == rows'[j].scope ==>
        !(rows'[i].active && rows'[j].active) && !(Covers(rows'[i], t) && Covers(rows'[j], t))
  {
    UpdatesKeepVersions(rows, us, from, now);
  }

  /******* The table remembers every price *******/

  // The price a scope has at an instant: the last update of the scope up to then.
  function PriceAt(us: seq<Update>, scope: Scope, t: int): Option<nat> {
    if us == [] then None
    else
      var u := us[|us| - 1];
      if u.scope == scope && u.at <= t then Some(u.price) else PriceAt(us[..|us| - 1], scope, t)
  }

  // Update i is of the scope and not later than the instant, and no such update comes after it.
  predicate LastUpTo(us: seq<Update>, scope: Scope, t: int, i: nat) {
    i < |us| && us[i].scope == scope && us[i].at <= t
    && forall j :: i < j < |us| && us[j].scope == scope ==> us[j].at > t
  }

  lemma {:induction false} PriceAtIsTheLast(us: seq<Update>, scope: Scope, t: int, price: nat)
    ensures PriceAt(us, scope, t) == Some(price) <==> exists i: nat :: LastUpTo(us, scope, t, i) && us[i].price == price
  {
    if us != [] {
      var front, n := us[..|us| - 1], |us| - 1;
      if us[n].scope == scope && us[n].at <= t {
        assert LastUpTo(us, scope, t, n);
      } else {
        PriceAtIsTheLast(front, scope, t, price);
        forall i: nat ensures LastUpTo(us, scope, t, i) <==> LastUpTo(front, scope, t, i) {
          if LastUpTo(front, scope, t, i) {
            forall j | i < j < |us| && us[j].scope == scope ensures us[j].at > t {
              assert j < n ==> us[j] == front[j];
            }
          }
          if LastUpTo(us, scope, t, i) {
            assert i != n;
          }
        }
      }
    }
  }

  // Some row of the scope covers the instant with this price.
  ghost predicate Shows(rows: seq<PriceRow>, scope: Scope, t: int, price: nat) {
    exists i :: 0 <= i < |rows| && rows[i].scope == scope && Covers(rows[i], t) && rows[i].price == price
  }

  // An update takes effect from its own time on and changes no price before it, nor any other scope's.
  lemma UpdateShows(rows: seq<PriceRow>, u: Update, now: int, scope: Scope, t: int, price: nat)
    requires Versioned(rows, now) && now <= u.at
    ensures Shows(Apply(rows, u), scope, t, price) <==>
            if u.scope == scope && u.at <= t then price == u.price else Shows(rows, scope, t, price)
  {
    var rows' := Apply(rows, u);
    if u.scope == scope && u.at <= t {
      if price == u.price {
        assert Covers(rows'[|rows|], t);
      }
      forall i | 0 <= i < |rows| && rows[i].scope == scope ensures !Covers(rows'[i], t) {
        assert WellFormedRow(rows[i], now) && rows'[i] == Close(rows[i], scope, u.at);
      }
    } else {
      forall i | 0 <= i < |rows| && rows[i].scope == scope
        ensures rows'[i].scope == scope && rows'[i].price == rows[i].price && (Covers(rows'[i], t) <==> Covers(rows[i], t))
      {
        assert WellFormedRow(rows[i], now) && rows'[i] == Close(rows[i], u.scope, u.at);
      }
      if Shows(rows, scope, t, price) {
        var i :| 0 <= i < |rows| && rows[i].scope == scope && Covers(rows[i], t) && rows[i].price == price;
        assert rows'[i].scope == scope && Covers(rows'[i], t);
      }
      if Shows(rows', scope, t, price) {
        var i :| 0 <= i < |rows'| && rows'[i].scope == scope && Covers(rows'[i], t) && rows'[i].price == price;
        assert i < |rows|;
        assert rows[i].scope == scope && Covers(rows[i], t);
      }
    }
  }

  // For every scope and every instant, the row that covers the instant holds the price of the
  // last update up to it.
  lemma {:induction false} RowsAreTheHistory(us: seq<Update>, from: int, now: int, scope: Scope, t: int, price: nat)
    requires InOrder(us, from, now)
    ensures Shows(ApplyAll([], us), scope, t, price) <==> PriceAt(us, scope, t) == Some(price)
  {
    if us != [] {
      var front, u := us[..|us| - 1], us[|us| - 1];
      RowsAreTheHistory(front, from, now, scope, t, price);
      UpdatesKeepVersions([], front, from, now);
      UpdateShows(ApplyAll([], front), u, if front == [] then from else front[|front| - 1].at, scope, t, price);
    }
  }

  /******* Two queries for the current price *******/

  predicate Current(row: PriceRow, product: ProductId, now: int) {
    row.scope.product == product && row.active && Covers(row, now)
  }

  // ORDER BY valid_from DESC LIMIT 1 over the current rows of one scope. SQL leaves open which
  // of several rows with the same valid_from is taken.
  ghost predicate ScopeQuery(rows: seq<PriceRow>, scope: Scope, now: int, answer: Option<nat>) {
    match answer
    case None => forall i :: 0 <= i < |rows| && rows[i].scope == scope ==> !Current(rows[i], scope.product, now)
    case Some(price) =>
      exists i ::
        0 <= i < |rows| && rows[i].scope == scope && Current(rows[i], scope.product, now) && rows[i].price == price
        && forall j :: 0 <= j < |rows| && rows[j].scope == scope && Current(rows[j], scope.product, now) ==>
             rows[j].validFrom <= rows[i].validFrom
  }

  // The checkout: COALESCE(store_price.price, organization_price.price).
  ghost predicate CheckoutQuery(rows: seq<PriceRow>, product: ProductId, store: StoreId, now: int, answer: Option<nat>) {
    exists own: Option<nat>, shared: Option<nat> ::
      ScopeQuery(rows, Scope(product, Some(store)), now, own) && ScopeQuery(rows, Scope(product, None), now, shared)
      && answer == if own.Some? then own else shared
  }

  predicate AdminCandidate(row: PriceRow, product: ProductId, store: Option<StoreId>, now: int) {
    Current(row, product, now)
    && if store.None? then row.scope.store.None? else row.scope.store == store || row.scope.store.None?
  }

  function AdminRank(row: PriceRow, store: Option<StoreId>): nat {
    if store.Some? && row.scope.store == store then 0 else 1
  }

  // The order of the admin query: the store's own rows first, the latest valid_from first.
  predicate NotAfter(a: PriceRow, b: PriceRow, store: Option<StoreId>) {
    AdminRank(a, store) < AdminRank(b, store)
    || (AdminRank(a, store) == AdminRank(b, store) && a.validFrom >= b.validFrom)
  }

  // The admin panel: one query over the rows of the store and of the organization.
  ghost predicate AdminQuery(rows: seq<PriceRow>, product: ProductId, store: Option<StoreId>, now: int, answer: Option<nat>) {
    match answer
    case None => forall i :: 0 <= i < |rows| ==> !AdminCandidate(rows[i], product, store, now)
    case Some(price) =>
      exists i ::
        0 <= i < |rows| && AdminCandidate(rows[i], product, store, now) && rows[i].price == price
        && forall j :: 0 <= j < |rows| && AdminCandidate(rows[j], product, store, now) ==> NotAfter(rows[i], rows[j], store)
  }

  // The price in force for a store: its own, or else the organization's.
  function PriceInForce(us: seq<Update>, product: ProductId, store: Option<StoreId>, now: int): Option<nat> {
    var own := PriceAt(us, Scope(product, store), now);
    if own.Some? then own else PriceAt(us, Scope(product, None), now)
  }

  // Where rows are versioned, a scope has no current row or exactly one.
  ghost predicate CurrentIs(rows: seq<PriceRow>, scope: Scope, now: int, i: int) {
    0 <= i < |rows| && rows[i].scope == scope && Current(rows[i], scope.product, now)
  }

  lemma OneCurrentRow(rows: seq<PriceRow>, scope: Scope, now: int, i: int, j: int)
    requires Versioned(rows, now) && CurrentIs(rows, scope, now, i) && CurrentIs(rows, scope, now, j)
    ensures i == j
  {
    assert WellFormedRow(rows[i], now) && WellFormedRow(rows[j], now);
  }

  lemma ScopeQueryFindsIt(rows: seq<PriceRow>, scope: Scope, now: int, i: int)
    requires Versioned(rows, now) && CurrentIs(rows, scope, now, i)
    ensures forall a :: ScopeQuery(rows, scope, now, a) <==> a == Some(rows[i].price)
  {
    forall j | CurrentIs(rows, scope, now, j) ensures i == j {
      OneCurrentRow(rows, scope, now, i, j);
    }
    forall a | ScopeQuery(rows, scope, now, a) ensures a == Some(rows[i].price) {
      if a.Some? {
        var j :| 0 <= j < |rows| && rows[j].scope == scope && Current(rows[j], scope.product, now) && rows[j].price == a.value;
        assert CurrentIs(rows, scope, now, j);
      }
    }
    assert ScopeQuery(rows, scope, now, Some(rows[i].price)) by {
      forall j | 0 <= j < |rows| && rows[j].scope == scope && Current(rows[j], scope.product, now) ensures i == j {
        assert CurrentIs(rows, scope, now, j);
      }
    }
  }

  lemma ScopeQueryFindsNone(rows: seq<PriceRow>, scope: Scope, now: int)
    requires forall i :: !CurrentIs(rows, scope, now, i)
    ensures forall a :: ScopeQuery(rows, scope, now, a) <==> a == None
  {
    forall a | ScopeQuery(rows, scope, now, a) ensures a == None {
      if a.Some? {
        var j :| 0 <= j < |rows| && rows[j].scope == scope && Current(rows[j], scope.product, now) && rows[j].price == a.value;
        assert CurrentIs(rows, scope, now, j);
      }
    }
    forall i | 0 <= i < |rows| && rows[i].scope == scope ensures !Current(rows[i], scope.product, now) {
      assert !CurrentIs(rows, scope, now, i);
    }
  }

  lemma AdminFindsIt(rows: seq<PriceRow>, product: ProductId, store: Option<StoreId>, now: int, i: int)
    requires Versioned(rows, now)
    requires CurrentIs(rows, Scope(product, store), now, i)
          || (CurrentIs(rows, Scope(product, None), now, i) && forall j :: !CurrentIs(rows, Scope(product, store), now, j))
    ensures forall a :: AdminQuery(rows, product, store, now, a) <==> a == Some(rows[i].price)
  {
    assert AdminCandidate(rows[i], product, store, now);
    forall j | 0 <= j < |rows| && AdminCandidate(rows[j], product, store, now)
      ensures NotAfter(rows[i], rows[j], store) && (NotAfter(rows[j], rows[i], store) ==> i == j)
    {
      assert CurrentIs(rows, rows[j].scope, now, j);
      assert rows[j].scope == Scope(product, store) || rows[j].scope == Scope(product, None);
      if rows[i].scope == rows[j].scope {
        OneCurrentRow(rows, rows[i].scope, now, i, j);
      }
    }
    forall a | AdminQuery(rows, product, store, now, a) ensures a == Some(rows[i].price) {
      if a.Some? {
        var j :|
          0 <= j < |rows| && AdminCandidate(rows[j], product, store, now) && rows[j].price == a.value
          && forall k :: 0 <= k < |rows| && AdminCandidate(rows[k], product, store, now) ==> NotAfter(rows[j], rows[k], store);
        assert NotAfter(rows[j], rows[i], store);
      }
    }
  }

  lemma AdminFindsNone(rows: seq<PriceRow>, product: ProductId, store: Option<StoreId>, now: int)
    requires forall i :: !CurrentIs(rows, Scope(product, store), now, i)
    requires forall i :: !CurrentIs(rows, Scope(product, None), now, i)
    ensures forall a :: AdminQuery(rows, product, store, now, a) <==> a == None
  {
    forall i | 0 <= i < |rows|
      ensures AdminCandidate(rows[i], product, store, now) ==>
                CurrentIs(rows, Scope(product, store), now, i) || CurrentIs(rows, Scope(product, None), now, i)
    {
      assert rows[i].scope == Scope(rows[i].scope.product, rows[i].scope.store);
    }
  }

  // Over versioned rows the two queries have one and the same answer for every store.
  lemma AdminAgreesWithCheckout(rows: seq<PriceRow>, product: ProductId, store: StoreId, now: int, answer: Option<nat>)
    requires Versioned(rows, now)
    ensures AdminQuery(rows, product, Some(store), now, answer) <==> CheckoutQuery(rows, product, store, now, answer)
  {
    var own, shared := Scope(product, Some(store)), Scope(product, None);
    if i :| CurrentIs(rows, own, now, i) {
      ScopeQueryFindsIt(rows, own, now, i);
      AdminFindsIt(rows, product, Some(store), now, i);
      var other := SomeAnswer(rows, shared, now);
      assert ScopeQuery(rows, own, now, Some(rows[i].price)) && ScopeQuery(rows, shared, now, other);
    } else {
      ScopeQueryFindsNone(rows, own, now);
      assert ScopeQuery(rows, own, now, None);
      if i :| CurrentIs(rows, shared, now, i) {
        ScopeQueryFindsIt(rows, shared, now, i);
        AdminFindsIt(rows, product, Some(store), now, i);
        assert ScopeQuery(rows, shared, now, Some(rows[i].price));
      } else {
        ScopeQueryFindsNone(rows, shared, now);
        AdminFindsNone(rows, product, Some(store), now);
        assert ScopeQuery(rows, shared, now, None);
      }
    }
  }

  lemma SomeAnswer(rows: seq<PriceRow>, scope: Scope, now: int) returns (a: Option<nat>)
    requires Versioned(rows, now)
    ensures ScopeQuery(rows, scope, now, a)
  {
    if i :| CurrentIs(rows, scope, now, i) {
      ScopeQueryFindsIt(rows, scope, now, i);
      a := Some(rows[i].price);
    } else {
      ScopeQueryFindsNone(rows, scope, now);
      a := None;
    }
  }

  // With rows up to `now` only, a row is current exactly when it covers `now`.
  lemma CurrentMeansCovers(rows: seq<PriceRow>, scope: Scope, now: int, i: nat)
    requires Versioned(rows, now) && i < |rows|
    ensures CurrentIs(rows, scope, now, i) <==> rows[i].scope == scope && Covers(rows[i], now)
  {
    assert WellFormedRow(rows[i], now);
  }

  lemma LaterVersions(rows: seq<PriceRow>, from: int, now: int)
    requires Versioned(rows, from) && from <= now
    ensures Versioned(rows, now)
  {
    forall i | 0 <= i < |rows| ensures WellFormedRow(rows[i], now) {
      assert WellFormedRow(rows[i], from);
    }
  }

  lemma UpdatedTable(us: seq<Update>, from: int, now: int)
    requires InOrder(us, from, now) && from <= now
    ensures Versioned(ApplyAll([], us), now)
  {
    UpdatesKeepVersions([], us, from, now);
    LaterVersions(ApplyAll([], us), if us == [] then from else us[|us| - 1].at, now);
  }

  // The current row of a scope is that of its last update.
  lemma CurrentIsLast(us: seq<Update>, from: int, now: int, scope: Scope) returns (i: int)
    requires InOrder(us, from, now) && from <= now
    ensures PriceAt(us, scope, now) == None ==> forall k :: !CurrentIs(ApplyAll([], us), scope, now, k)
    ensures PriceAt(us, scope, now).Some? ==>
              CurrentIs(ApplyAll([], us), scope, now, i) && PriceAt(us, scope, now) == Some(ApplyAll([], us)[i].price)
  {
    var rows := ApplyAll([], us);
    UpdatedTable(us, from, now);
    i := 0;
    match PriceAt(us, scope, now)
    case None =>
      forall k | 0 <= k < |rows| ensures !CurrentIs(rows, scope, now, k) {
        CurrentMeansCovers(rows, scope, now, k);
        RowsAreTheHistory(us, from, now, scope, now, rows[k].price);
      }
    case Some(price) =>
      RowsAreTheHistory(us, from, now, scope, now, price);
      var k :| 0 <= k < |rows| && rows[k].scope == scope && Covers(rows[k], now) && rows[k].price == price;
      CurrentMeansCovers(rows, scope, now, k);
      i := k;
  }

  // Both queries return the price last set for the store, or else the one last set for the
  // organization, whatever other updates came in between.
  lemma QueriesFindPriceInForce(us: seq<Update>, from: int, now: int, product: ProductId, store: Option<StoreId>, answer: Option<nat>)
    requires InOrder(us, from, now) && from <= now
    ensures AdminQuery(ApplyAll([], us), product, store, now, answer) <==> answer == PriceInForce(us, product, store, now)
    ensures store.Some? ==>
              (CheckoutQuery(ApplyAll([], us), product, store.value, now, answer) <==> answer == PriceInForce(us, product, store, now))
  {
    var rows := ApplyAll([], us);
    UpdatedTable(us, from, now);
    var own := CurrentIsLast(us, from, now, Scope(product, store));
    var shared := CurrentIsLast(us, from, now, Scope(product, None));
    if PriceAt(us, Scope(product, store), now).Some? {
      AdminFindsIt(rows, product, store, now, own);
    } else if PriceAt(us, Scope(product, None), now).Some? {
      AdminFindsIt(rows, product, store, now, shared);
    } else {
      AdminFindsNone(rows, product, store, now);
    }
    if store.Some? {
      AdminAgreesWithCheckout(rows, product, store.value, now, answer);
    }
  }
}
