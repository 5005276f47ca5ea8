// The audit trail: rows chained by a hash of their payload and of the row before, and the list
// of fields a change touched.
module AuditTrail {
  import opened Basics

  // JSON values; an object's members come in the order in which JavaScript lists them.
  datatype Json = Null | Bool(b: bool) | Number(n: int) | Text(text: string) | Array(items: seq<Json>) | Object(fields: seq<Field>)

  datatype Field = Field(name: string, value: Json)

  // What a caller passes; anything it leaves out is None.
  datatype Entry = Entry(
    userId: Option<string>, userType: Option<string>, sessionId: Option<string>,
    action: string, entityType: Option<string>, entityId: Option<string>,
    oldValues: Option<seq<Field>>, newValues: Option<seq<Field>>,
    ipAddress: Option<string>, userAgent: Option<string>, requestId: Option<string>)

  // What is hashed: the previous hash and six of the entry's values, absent ones replaced.
  datatype Payload = Payload(
    previousHash: string, action: string, entityType: Option<string>, entityId: Option<string>,
    oldValues: seq<Field>, newValues: seq<Field>, requestId: Option<string>)

  // A row as it reads back. Old and new values are kept in JSONB columns and the entity id in a
  // UUID column. A row that predates the chain has neither hash.
  datatype Row = Row(
    auditId: string, createdAt: int,
    userId: Option<string>, userType: Option<string>, sessionId: Option<string>,
    action: string, entityType: Option<string>, entityId: Option<string>,
    oldValues: seq<Field>, newValues: seq<Field>, changedFields: seq<string>,
    ipAddress: Option<string>, userAgent: Option<string>, requestId: Option<string>,
    previousHash: Option<string>, auditHash: Option<string>)

  // `value || null` on a string.
  function OrNull(value: Option<string>): Option<string> {
    if value == Some("") then None else value
  }

  // `value || {}` on an object.
  function OrEmpty(value: Option<seq<Field>>): seq<Field> {
    if value.Some? then value.value else []
  }

  // The row with the greatest created_at, the later-placed of equals.
  function Latest(rows: seq<Row>): (latest: Option<Row>)
    ensures latest.None? <==> rows == []
  {
    if rows == [] then None
    else
      var before := Latest(rows[..|rows| - 1]);
      var last := rows[|rows| - 1];
      if before.Some? && before.value.createdAt > last.createdAt then before else Some(last)
  }

  // `rows[0]?.audit_hash || ""`
  function PreviousHash(rows: seq<Row>): string {
    var latest := Latest(rows);
    if latest.Some? && latest.value.auditHash.Some? then latest.value.auditHash.value else ""
  }

  function PayloadOf(previousHash: string, e: Entry): Payload {
    Payload(previousHash, e.action, OrNull(e.entityType), OrNull(e.entityId),
            OrEmpty(e.oldValues), OrEmpty(e.newValues), OrNull(e.requestId))
  }

  /******* What the columns make of the values *******/

  predicate Digits(name: string) {
    forall i :: 0 <= i < |name| ==> '0' <= name[i] <= '9'
  }

  function ValueOf(digits: string): nat
    requires Digits(digits)
  {
    if digits == "" then 0
    else
      var n := |digits| - 1;
      10 * ValueOf(digits[..n]) + (digits[n] as int - '0' as int)
  }

  // An array index, the plain decimal text of a number up to 2^32 - 2. JavaScript lists these
  // before all other names.
  predicate IsIndex(name: string) {
    name != "" && Digits(name) && (name == "0" || name[0] != '0') && ValueOf(name) <= 0xFFFF_FFFE
  }

  // The byte order of texts of one length.
  predicate NotAfter(a: string, b: string) {
    a == "" || b == "" || a[0] < b[0] || (a[0] == b[0] && NotAfter(a[1..], b[1..]))
  }

  predicate ShortFirst(a: string, b: string) {
    |a| < |b| || (|a| == |b| && NotAfter(a, b))
  }

  // A JSONB column keeps shorter names before longer ones, and names of one length in byte order;
  // read back into JavaScript, indices come first.
  predicate ReadsBefore(a: string, b: string) {
    if IsIndex(a) == IsIndex(b) then ShortFirst(a, b) else IsIndex(a)
  }

  // A value as it reads back from a JSONB column, at all depths.
  function Stored(j: Json): Json {
    match j
    case Array(items) => Array(StoredItems(items))
    case Object(fields) => Object(StoredFields(fields))
    case _ => j
  }

  function StoredItems(items: seq<Json>): (out: seq<Json>)
    ensures |out| == |items|
  {
    if items == [] then [] else [Stored(items[0])] + StoredItems(items[1..])
  }

  function StoredFields(fields: seq<Field>): seq<Field> {
    if fields == [] then []
    else InsertField(Field(fields[0].name, Stored(fields[0].value)), StoredFields(fields[1..]))
  }

  function InsertField(f: Field, fields: seq<Field>): seq<Field> {
    if fields == [] || ReadsBefore(f.name, fields[0].name) then [f] + fields
    else [fields[0]] + InsertField(f, fields[1..])
  }

  // The value's objects, at all depths, already list their members as they read back.
  predicate InStoredOrder(j: Json) {
    match j
    case Array(items) => ItemsInOrder(items)
    case Object(fields) => FieldsInOrder(fields)
    case _ => true
  }

  predicate ItemsInOrder(items: seq<Json>) {
    items == [] || (InStoredOrder(items[0]) && ItemsInOrder(items[1..]))
  }

  predicate FieldsInOrder(fields: seq<Field>) {
    fields == []
    || (InStoredOrder(fields[0].value) && FieldsInOrder(fields[1..])
        && (|fields| > 1 ==> ReadsBefore(fields[0].name, fields[1].name)))
  }

  lemma {:induction false} NotAfterIsTotal(a: string, b: string)
    ensures NotAfter(a, b) || NotAfter(b, a)
  {
    if a != "" && b != "" {
      NotAfterIsTotal(a[1..], b[1..]);
    }
  }

  predicate FirstDifferenceAt(a: string, b: string, k: nat) {
    k < |a| && k < |b| && a[..k] == b[..k] && a[k] < b[k]
  }

  // Of two texts of one length that differ, the one with the smaller character at the first
  // difference comes first.
  lemma {:induction false} NotAfterIs(a: string, b: string)
    requires |a| == |b|
    ensures NotAfter(a, b) <==> a == b || exists k: nat :: FirstDifferenceAt(a, b, k)
  {
    if a != "" {
      NotAfterIs(a[1..], b[1..]);
      if NotAfter(a, b) && a != b {
        if a[0] < b[0] {
          assert FirstDifferenceAt(a, b, 0);
        } else {
          var k: nat :| FirstDifferenceAt(a[1..], b[1..], k);
          assert a[..k + 1] == [a[0]] + a[1..][..k] && b[..k + 1] == [b[0]] + b[1..][..k];
          assert FirstDifferenceAt(a, b, k + 1);
        }
      }
      if k: nat :| FirstDifferenceAt(a, b, k) {
        if k > 0 {
          assert a[..k][0] == b[..k][0];
          assert a[1..][..k - 1] == a[..k][1..] && b[1..][..k - 1] == b[..k][1..];
          assert FirstDifferenceAt(a[1..], b[1..], k - 1);
        }
      }
    }
  }

  // A digit followed by n zeros.
  function Scaled(digit: nat, n: nat): nat {
    if n == 0 then digit else 10 * Scaled(digit, n - 1)
  }

  function DigitOf(c: char): nat
    requires '0' <= c <= '9'
  {
    c as int - '0' as int
  }

  lemma {:induction false} FirstDigitCounts(digits: string)
    requires digits != "" && Digits(digits)
    ensures ValueOf(digits) == Scaled(DigitOf(digits[0]), |digits| - 1) + ValueOf(digits[1..])
    decreases |digits|
  {
    var n := |digits| - 1;
    if n > 0 {
      FirstDigitCounts(digits[..n]);
      assert digits[..n][1..] == digits[1..][..n - 1];
    }
  }

  lemma {:induction false} ValueIsBelow(digits: string)
    requires Digits(digits)
    ensures ValueOf(digits) < Scaled(1, |digits|)
  {
    if digits != "" {
      ValueIsBelow(digits[..|digits| - 1]);
    }
  }

  lemma {:induction false} ScaledApart(x: nat, y: nat, n: nat)
    requires x < y
    ensures Scaled(x, n) + Scaled(1, n) <= Scaled(y, n)
  {
    if n > 0 {
      ScaledApart(x, y, n - 1);
    }
  }

  lemma FirstDigitDecides(a: string, b: string)
    requires |a| == |b| > 0 && Digits(a) && Digits(b) && a[0] < b[0]
    ensures ValueOf(a) < ValueOf(b)
  {
    FirstDigitCounts(a);
    FirstDigitCounts(b);
    ValueIsBelow(a[1..]);
    ScaledApart(DigitOf(a[0]), DigitOf(b[0]), |a| - 1);
  }

  lemma {:induction false} OrderIsByValue(a: string, b: string)
    requires |a| == |b| && Digits(a) && Digits(b)
    ensures NotAfter(a, b) <==> ValueOf(a) <= ValueOf(b)
  {
    if a != "" {
      if a[0] < b[0] {
        FirstDigitDecides(a, b);
      } else if b[0] < a[0] {
        FirstDigitDecides(b, a);
      } else {
        FirstDigitCounts(a);
        FirstDigitCounts(b);
        OrderIsByValue(a[1..], b[1..]);
      }
    }
  }

  lemma {:induction false} ScaledGrows(m: nat, n: nat)
    requires m <= n
    ensures Scaled(1, m) <= Scaled(1, n)
  {
    if m < n {
      ScaledGrows(m, n - 1);
    }
  }

  lemma {:induction false} ScaledFromOne(digit: nat, n: nat)
    requires digit >= 1
    ensures Scaled(digit, n) >= Scaled(1, n)
  {
    if n > 0 {
      ScaledFromOne(digit, n - 1);
    }
  }

  lemma LongerIsGreater(a: string, b: string)
    requires Digits(a) && Digits(b) && |a| < |b| && b[0] != '0'
    ensures ValueOf(a) < ValueOf(b)
  {
    ValueIsBelow(a);
    ScaledGrows(|a|, |b| - 1);
    FirstDigitCounts(b);
    ScaledFromOne(DigitOf(b[0]), |b| - 1);
  }

  // Names that are array indices read back in ascending order of their numbers.
  lemma IndicesAscend(a: string, b: string)
    requires IsIndex(a) && IsIndex(b)
    ensures ReadsBefore(a, b) <==> ValueOf(a) <= ValueOf(b)
  {
    if |a| == |b| {
      OrderIsByValue(a, b);
    } else if |a| < |b| {
      LongerIsGreater(a, b);
    } else {
      LongerIsGreater(b, a);
    }
  }

  // Of two other names, the shorter reads back first, and of two of one length the one with the
  // smaller character at the first difference; any index reads back before both.
  lemma NamesAreOrdered(a: string, b: string)
    requires !IsIndex(b)
    ensures
      ReadsBefore(a, b) <==>
        IsIndex(a) || |a| < |b| || a == b || (|a| == |b| && exists k: nat :: FirstDifferenceAt(a, b, k))
  {
    if |a| == |b| {
      NotAfterIs(a, b);
    }
  }

  lemma {:induction false} InsertKeepsOrder(f: Field, fields: seq<Field>)
    requires InStoredOrder(f.value) && FieldsInOrder(fields)
    ensures FieldsInOrder(InsertField(f, fields))
  {
    if fields != [] && !ReadsBefore(f.name, fields[0].name) {
      NotAfterIsTotal(f.name, fields[0].name);
      InsertKeepsOrder(f, fields[1..]);
      var rest := InsertField(f, fields[1..]);
      assert rest[0] == f || (|fields| > 1 && rest[0] == fields[1]);
      assert ([fields[0]] + rest)[1..] == rest;
    } else {
      assert ([f] + fields)[1..] == fields;
    }
  }

  lemma {:induction false} StoredIsInOrder(j: Json)
    ensures InStoredOrder(Stored(j))
  {
    match j {
      case Array(items) => StoredItemsInOrder(items);
      case Object(fields) => StoredFieldsInOrder(fields);
      case _ =>
    }
  }

  lemma {:induction false} StoredItemsInOrder(items: seq<Json>)
    ensures ItemsInOrder(StoredItems(items))
  {
    if items != [] {
      StoredIsInOrder(items[0]);
      StoredItemsInOrder(items[1..]);
      assert StoredItems(items)[1..] == StoredItems(items[1..]);
    }
  }

  lemma {:induction false} StoredFieldsInOrder(fields: seq<Field>)
    ensures FieldsInOrder(StoredFields(fields))
  {
    if fields != [] {
      StoredIsInOrder(fields[0].value);
      StoredFieldsInOrder(fields[1..]);
      InsertKeepsOrder(Field(fields[0].name, Stored(fields[0].value)), StoredFields(fields[1..]));
    }
  }

  lemma {:induction false} OrderIsKept(j: Json)
    requires InStoredOrder(j)
    ensures Stored(j) == j
  {
    match j {
      case Array(items) => ItemOrderIsKept(items);
      case Object(fields) => FieldOrderIsKept(fields);
      case _ =>
    }
  }

  lemma {:induction false} ItemOrderIsKept(items: seq<Json>)
    requires ItemsInOrder(items)
    ensures StoredItems(items) == items
  {
    if items != [] {
      OrderIsKept(items[0]);
      ItemOrderIsKept(items[1..]);
    }
  }

  lemma {:induction false} FieldOrderIsKept(fields: seq<Field>)
    requires FieldsInOrder(fields)
    ensures StoredFields(fields) == fields
  {
    if fields != [] {
      OrderIsKept(fields[0].value);
      FieldOrderIsKept(fields[1..]);
    }
  }

  // An object reads back as it was given exactly when it was given in the order of the column.
  lemma ReadsBackIff(fields: seq<Field>)
    ensures StoredFields(fields) == fields <==> FieldsInOrder(fields)
  {
    StoredFieldsInOrder(fields);
    if FieldsInOrder(fields) {
      FieldOrderIsKept(fields);
    }
  }

  // The members with their values stored, in the order in which they were given.
  function StoredEach(fields: seq<Field>): seq<Field> {
    if fields == [] then [] else [Field(fields[0].name, Stored(fields[0].value))] + StoredEach(fields[1..])
  }

  // Nothing but the order changes.
  lemma {:induction false} StoredIsPermutation(fields: seq<Field>)
    ensures multiset(StoredFields(fields)) == multiset(StoredEach(fields))
  {
    if fields != [] {
      StoredIsPermutation(fields[1..]);
      InsertAdds(Field(fields[0].name, Stored(fields[0].value)), StoredFields(fields[1..]));
    }
  }

  lemma {:induction false} InsertAdds(f: Field, fields: seq<Field>)
    ensures multiset(InsertField(f, fields)) == multiset(fields) + multiset{f}
  {
    if fields != [] && !ReadsBefore(f.name, fields[0].name) {
      InsertAdds(f, fields[1..]);
      assert fields == [fields[0]] + fields[1..];
    }
  }

  // A UUID column: the form in which a text reads back, or None when the column refuses it.
  type UuidColumn = string -> Option<string>

  predicate Accepts(e: Entry, uuid: UuidColumn) {
    OrNull(e.entityId).Some? ==> uuid(OrNull(e.entityId).value).Some?
  }

  function StoredId(id: Option<string>, uuid: UuidColumn): Option<string> {
    if id.None? then None else uuid(id.value)
  }

  /******* Changed fields *******/

  function Lookup(fields: seq<Field>, name: string): Option<Json> {
    if fields == [] then None
    else if fields[0].name == name then Some(fields[0].value)
    else Lookup(fields[1..], name)
  }

  predicate Changed(older: seq<Field>, newer: seq<Field>, name: string) {
    Lookup(older, name) != Lookup(newer, name)
  }

  function Names(fields: seq<Field>): (names: seq<string>)
    ensures |names| == |fields|
  {
    seq(|fields|, i requires 0 <= i < |fields| => fields[i].name)
  }

  // The names that changed, in the order of first appearance.
  function ChangedAmong(older: seq<Field>, newer: seq<Field>, names: seq<string>, from: nat): seq<string>
    requires from <= |names|
  {
    if from == 0 then []
    else
      var before := ChangedAmong(older, newer, names, from - 1);
      var name := names[from - 1];
      if Changed(older, newer, name) && name !in names[..from - 1] then before + [name] else before
  }

  function ChangedFields(oldValues: Option<seq<Field>>, newValues: Option<seq<Field>>): seq<string> {
    if oldValues.None? || newValues.None? then []
    else
      var names := Names(oldValues.value) + Names(newValues.value);
      ChangedAmong(oldValues.value, newValues.value, names, |names|)
  }

  method CalculateChangedFields(oldValues: Option<seq<Field>>, newValues: Option<seq<Field>>) returns (changed: seq<string>)
    ensures changed == ChangedFields(oldValues, newValues)
  {
    if oldValues.None? || newValues.None? {
      return [];
    }
    var names := Names(oldValues.value) + Names(newValues.value);
    changed := [];
    var seen: set<string> := {};
    for i := 0 to |names|
      invariant forall n :: n in seen <==> n in names[..i]
      invariant changed == ChangedAmong(oldValues.value, newValues.value, names, i)
    {
      assert names[..i + 1] == names[..i] + [names[i]];
      if names[i] !in seen {
        seen := seen + {names[i]};
        if Lookup(oldValues.value, names[i]) != Lookup(newValues.value, names[i]) {
          changed := changed + [names[i]];
        }
      }
    }
  }

  lemma {:induction false} LookupFinds(fields: seq<Field>, name: string)
    ensures Lookup(fields, name).Some? <==> name in Names(fields)
  {
    if fields != [] {
      LookupFinds(fields[1..], name);
      assert Names(fields) == [fields[0].name] + Names(fields[1..]);
    }
  }

  lemma {:induction false} AmongIsExact(older: seq<Field>, newer: seq<Field>, names: seq<string>, from: nat)
    requires from <= |names|
    ensures
      var changed := ChangedAmong(older, newer, names, from);
      (forall n :: n in changed <==> n in names[..from] && Changed(older, newer, n))
      && forall i, j :: 0 <= i < j < |changed| ==> changed[i] != changed[j]
  {
    if from > 0 {
      AmongIsExact(older, newer, names, from - 1);
      assert names[..from] == names[..from - 1] + [names[from - 1]];
    }
  }

  // Some place of a name lies before every place of the other.
  predicate AppearsBefore(names: seq<string>, a: string, b: string) {
    exists k :: 0 <= k < |names| && names[k] == a && b !in names[..k + 1]
  }

  // The fields are listed in the order in which they first appear.
  lemma {:induction false} AmongIsInOrder(older: seq<Field>, newer: seq<Field>, names: seq<string>, from: nat, i: nat, j: nat)
    requires from <= |names| && i < j < |ChangedAmong(older, newer, names, from)|
    ensures
      var changed := ChangedAmong(older, newer, names, from);
      AppearsBefore(names, changed[i], changed[j])
  {
    var changed := ChangedAmong(older, newer, names, from);
    var before := ChangedAmong(older, newer, names, from - 1);
    if j < |before| {
      AmongIsInOrder(older, newer, names, from - 1, i, j);
    } else {
      AmongIsExact(older, newer, names, from - 1);
      assert changed[i] == before[i] && changed[i] in before;
      var k :| 0 <= k < from - 1 && names[..from - 1][k] == changed[i];
      assert names[k] == changed[i] && names[..k + 1] == names[..from - 1][..k + 1];
    }
  }

  lemma ChangedFieldsAreInOrder(oldValues: seq<Field>, newValues: seq<Field>, i: nat, j: nat)
    requires i < j < |ChangedFields(Some(oldValues), Some(newValues))|
    ensures
      var changed := ChangedFields(Some(oldValues), Some(newValues));
      AppearsBefore(Names(oldValues) + Names(newValues), changed[i], changed[j])
  {
    var names := Names(oldValues) + Names(newValues);
    AmongIsInOrder(oldValues, newValues, names, |names|, i, j);
  }

  // Between two objects, the fields listed are exactly those whose value differs or that only
  // one of the two has, each once; if either object is missing, none are listed.
  lemma ChangedFieldsAreExact(oldValues: Option<seq<Field>>, newValues: Option<seq<Field>>, name: string)
    ensures
      var changed := ChangedFields(oldValues, newValues);
      (name in changed <==>
         oldValues.Some? && newValues.Some? && Lookup(oldValues.value, name) != Lookup(newValues.value, name))
      && forall i, j :: 0 <= i < j < |changed| ==> changed[i] != changed[j]
  {
    if oldValues.Some? && newValues.Some? {
      var names := Names(oldValues.value) + Names(newValues.value);
      AmongIsExact(oldValues.value, newValues.value, names, |names|);
      LookupFinds(oldValues.value, name);
      LookupFinds(newValues.value, name);
      assert names[..|names|] == names;
    }
  }

  /******* Appending *******/

  function RowOf(rows: seq<Row>, e: Entry, auditId: string, now: int, hash: Payload -> string, uuid: UuidColumn): Row {
    var previous := PreviousHash(rows);
    Row(auditId, now, OrNull(e.userId), OrNull(e.userType), OrNull(e.sessionId),
        e.action, OrNull(e.entityType), StoredId(OrNull(e.entityId), uuid),
        StoredFields(OrEmpty(e.oldValues)), StoredFields(OrEmpty(e.newValues)), ChangedFields(e.oldValues, e.newValues),
        OrNull(e.ipAddress), OrNull(e.userAgent), OrNull(e.requestId),
        Some(previous), Some(hash(PayloadOf(previous, e))))
  }

  // A text column holds the text that was passed, and nothing for the empty text.
  predicate Keeps(column: Option<string>, passed: Option<string>) {
    if passed.Some? && passed.value != "" then column == passed else column == None
  }

  predicate SameText(a: Option<string>, b: Option<string>) {
    a == b || ((a == None || a == Some("")) && (b == None || b == Some("")))
  }

  predicate SameObject(a: Option<seq<Field>>, b: Option<seq<Field>>) {
    a == b || ((a == None || a == Some([])) && (b == None || b == Some([])))
  }

  // Two entries are hashed alike exactly when they agree in the six values that the hash
  // covers, with nothing passed and an empty value counting as the same.
  lemma HashedAlikeIff(previous: string, e: Entry, previous': string, e': Entry)
    ensures
      PayloadOf(previous, e) == PayloadOf(previous', e') <==>
        previous == previous' && e.action == e'.action
        && SameText(e.entityType, e'.entityType) && SameText(e.entityId, e'.entityId) && SameText(e.requestId, e'.requestId)
        && SameObject(e.oldValues, e'.oldValues) && SameObject(e.newValues, e'.newValues)
  {
  }

  predicate NoneLaterThan(rows: seq<Row>, row: Row) {
    forall j :: 0 <= j < |rows| ==> rows[j].createdAt <= row.createdAt
  }

  // Which value stands in which column. The latest row is one that no row is later than.
  lemma RowIs(rows: seq<Row>, e: Entry, auditId: string, now: int, hash: Payload -> string, uuid: UuidColumn)
    ensures
      var row := RowOf(rows, e, auditId, now, hash, uuid);
      row.auditId == auditId && row.createdAt == now && row.action == e.action
      && Keeps(row.userId, e.userId) && Keeps(row.userType, e.userType) && Keeps(row.sessionId, e.sessionId)
      && Keeps(row.entityType, e.entityType) && Keeps(row.requestId, e.requestId)
      && Keeps(row.ipAddress, e.ipAddress) && Keeps(row.userAgent, e.userAgent)
    ensures
      var row := RowOf(rows, e, auditId, now, hash, uuid);
      row.entityId == if e.entityId.Some? && e.entityId.value != "" then uuid(e.entityId.value) else None
    ensures
      var row := RowOf(rows, e, auditId, now, hash, uuid);
      row.oldValues == (if e.oldValues.Some? then StoredFields(e.oldValues.value) else [])
      && row.newValues == (if e.newValues.Some? then StoredFields(e.newValues.value) else [])
      && forall name ::
        name in row.changedFields <==>
          e.oldValues.Some? && e.newValues.Some? && Lookup(e.oldValues.value, name) != Lookup(e.newValues.value, name)
    ensures
      var row := RowOf(rows, e, auditId, now, hash, uuid);
      if rows == [] then row.previousHash == Some("")
      else
        exists i :: 0 <= i < |rows| && NoneLaterThan(rows, rows[i])
                    && row.previousHash == if rows[i].auditHash.Some? then rows[i].auditHash else Some("")
  {
    var row := RowOf(rows, e, auditId, now, hash, uuid);
    forall name
      ensures name in row.changedFields <==>
                e.oldValues.Some? && e.newValues.Some? && Lookup(e.oldValues.value, name) != Lookup(e.newValues.value, name)
    {
      ChangedFieldsAreExact(e.oldValues, e.newValues, name);
    }
    if rows != [] {
      LatestIsGreatest(rows);
    }
  }

  lemma {:induction false} LatestIsGreatest(rows: seq<Row>)
    requires rows != []
    ensures Latest(rows).value in rows && NoneLaterThan(rows, Latest(rows).value)
  {
    var n := |rows| - 1;
    if n > 0 {
      LatestIsGreatest(rows[..n]);
      forall j | 0 <= j < n ensures rows[j].createdAt <= Latest(rows).value.createdAt {
        assert rows[j] == rows[..n][j];
      }
    }
  }

  datatype RecordError = MalformedEntityId

  class AuditTrailService {
    var rows: seq<Row>
    ghost var hashed: seq<Payload>
    const hash: Payload -> string
    const uuid: UuidColumn

    constructor (rows: seq<Row>, hash: Payload -> string, uuid: UuidColumn)
      ensures this.rows == rows && hashed == [] && this.hash == hash && this.uuid == uuid
    {
      this.rows, hashed, this.hash, this.uuid := rows, [], hash, uuid;
    }

    // The hash is over the values as they were passed; the row holds them as the columns keep
    // them. An insert that the UUID column refuses adds nothing.
    method RecordEntry(e: Entry, auditId: string, now: int) returns (r: Result<Row, RecordError>)
      modifies this
      ensures r == if Accepts(e, uuid) then Ok(RowOf(old(rows), e, auditId, now, hash, uuid)) else Err(MalformedEntityId)
      ensures rows == if r.Ok? then old(rows) + [r.value] else old(rows)
      ensures hashed == if r.Ok? then old(hashed) + [PayloadOf(PreviousHash(old(rows)), e)] else old(hashed)
    {
      var changed := CalculateChangedFields(e.oldValues, e.newValues);
      var latest := Latest(rows);
      var previous := "";
      if latest.Some? && latest.value.auditHash.Some? {
        previous := latest.value.auditHash.value;
      }
      var digest := hash(PayloadOf(previous, e));
      var id := OrNull(e.entityId);
      if id.Some? {
        id := uuid(id.value);
        if id.None? {
          return Err(MalformedEntityId);
        }
      }
      var row := Row(auditId, now, OrNull(e.userId), OrNull(e.userType), OrNull(e.sessionId),
                     e.action, OrNull(e.entityType), id,
                     StoredFields(OrEmpty(e.oldValues)), StoredFields(OrEmpty(e.newValues)), changed,
                     OrNull(e.ipAddress), OrNull(e.userAgent), OrNull(e.requestId),
                     Some(previous), Some(digest));
      hashed := hashed + [PayloadOf(previous, e)];
      rows := rows + [row];
      r := Ok(row);
    }
  }

  /******* The chain *******/

  predicate InOrder(rows: seq<Row>) {
    forall i, j :: 0 <= i < j < |rows| ==> rows[i].createdAt < rows[j].createdAt
  }

  // The columns of the row hold the hashed payload as columns do.
  predicate Holds(row: Row, p: Payload, uuid: UuidColumn) {
    row.action == p.action && row.entityType == p.entityType && row.entityId == StoredId(p.entityId, uuid)
    && row.oldValues == StoredFields(p.oldValues) && row.newValues == StoredFields(p.newValues)
    && row.requestId == p.requestId
  }

  // Payload k carries the hash of the payload before it.
  predicate LinkAt(hashed: seq<Payload>, k: nat, hash: Payload -> string)
    requires k < |hashed|
  {
    hashed[k].previousHash == if k == 0 then "" else hash(hashed[k - 1])
  }

  predicate Linked(hashed: seq<Payload>, hash: Payload -> string) {
    forall k :: 0 <= k < |hashed| ==> LinkAt(hashed, k, hash)
  }

  lemma LinkedFront(hashed: seq<Payload>, n: nat, hash: Payload -> string)
    requires Linked(hashed, hash) && n <= |hashed|
    ensures Linked(hashed[..n], hash)
  {
    forall k | 0 <= k < n ensures LinkAt(hashed[..n], k, hash) {
      assert LinkAt(hashed, k, hash);
    }
  }

  lemma LinkedAppend(hashed: seq<Payload>, p: Payload, hash: Payload -> string)
    requires Linked(hashed, hash) && p.previousHash == if hashed == [] then "" else hash(hashed[|hashed| - 1])
    ensures Linked(hashed + [p], hash)
  {
    forall k | 0 <= k <= |hashed| ensures LinkAt(hashed + [p], k, hash) {
      if k < |hashed| {
        assert LinkAt(hashed, k, hash);
      }
    }
  }

  predicate Signs(row: Row, p: Payload, hash: Payload -> string, uuid: UuidColumn) {
    row.previousHash == Some(p.previousHash) && row.auditHash == Some(hash(p)) && Holds(row, p, uuid)
  }

  // Rows before `start` predate the chain. From there on row i carries the hash of payload
  // i - start, which it holds, and so the hash of the row before it.
  predicate Chained(rows: seq<Row>, start: nat, hashed: seq<Payload>, hash: Payload -> string, uuid: UuidColumn) {
    |rows| == start + |hashed| && Linked(hashed, hash)
    && (forall i :: 0 <= i < start ==> rows[i].auditHash.None?)
    && (forall i :: start <= i < |rows| ==> Signs(rows[i], hashed[i - start], hash, uuid))
  }

  // No two payloads share a hash, and no hash is empty.
  ghost predicate CollisionFree(hash: Payload -> string) {
    (forall p, q :: hash(p) == hash(q) ==> p == q) && forall p :: hash(p) != ""
  }

  lemma {:induction false} LatestIsLast(rows: seq<Row>)
    requires rows != [] && InOrder(rows)
    ensures Latest(rows) == Some(rows[|rows| - 1])
  {
    if |rows| > 1 {
      LatestIsLast(rows[..|rows| - 1]);
    }
  }

  function LastHash(rows: seq<Row>): string {
    if rows == [] || rows[|rows| - 1].auditHash.None? then "" else rows[|rows| - 1].auditHash.value
  }

  // The last hash of a chain is that of its last payload.
  lemma LastHashIs(rows: seq<Row>, start: nat, hashed: seq<Payload>, hash: Payload -> string, uuid: UuidColumn)
    requires Chained(rows, start, hashed, hash, uuid)
    ensures LastHash(rows) == if hashed == [] then "" else hash(hashed[|hashed| - 1])
  {
    if hashed != [] {
      assert Signs(rows[|rows| - 1], hashed[|rows| - 1 - start], hash, uuid);
    }
  }

  // Each row of a chain names the hash of the row before it.
  lemma RowsLink(rows: seq<Row>, start: nat, hashed: seq<Payload>, hash: Payload -> string, uuid: UuidColumn, i: nat)
    requires Chained(rows, start, hashed, hash, uuid) && start <= i < |rows|
    ensures rows[i].previousHash == if i == start then Some("") else rows[i - 1].auditHash
  {
    assert Signs(rows[i], hashed[i - start], hash, uuid) && LinkAt(hashed, i - start, hash);
    if i > start {
      assert Signs(rows[i - 1], hashed[i - 1 - start], hash, uuid);
    }
  }

  // An append after every earlier row extends the chain.
  lemma AppendKeepsChain(
    rows: seq<Row>, start: nat, hashed: seq<Payload>, hash: Payload -> string, uuid: UuidColumn, e: Entry, auditId: string, now: int)
    requires InOrder(rows) && Chained(rows, start, hashed, hash, uuid) && Accepts(e, uuid)
    requires forall i :: 0 <= i < |rows| ==> rows[i].createdAt < now
    ensures
      var rows' := rows + [RowOf(rows, e, auditId, now, hash, uuid)];
      InOrder(rows') && Chained(rows', start, hashed + [PayloadOf(PreviousHash(rows), e)], hash, uuid)
  {
    var row, p := RowOf(rows, e, auditId, now, hash, uuid), PayloadOf(PreviousHash(rows), e);
    assert PreviousHash(rows) == LastHash(rows) by {
      if rows != [] {
        LatestIsLast(rows);
      }
    }
    LastHashIs(rows, start, hashed, hash, uuid);
    LinkedAppend(hashed, p, hash);
    assert Signs(row, p, hash, uuid);
    forall i | start <= i < |rows| + 1 ensures Signs((rows + [row])[i], (hashed + [p])[i - start], hash, uuid) {
      if i < |rows| {
        assert Signs(rows[i], hashed[i - start], hash, uuid);
      }
    }
  }

  // An entry with the id and time it is recorded under.
  datatype Recording = Recording(entry: Entry, auditId: string, at: int)

  // The rows after some recordings, and the payloads that were hashed.
  function RecordAll(rows: seq<Row>, es: seq<Recording>, hash: Payload -> string, uuid: UuidColumn): seq<Row> {
    if es == [] then rows
    else
      var before := RecordAll(rows, es[..|es| - 1], hash, uuid);
      var last := es[|es| - 1];
      if Accepts(last.entry, uuid) then before + [RowOf(before, last.entry, last.auditId, last.at, hash, uuid)] else before
  }

  function HashedBy(rows: seq<Row>, es: seq<Recording>, hash: Payload -> string, uuid: UuidColumn): seq<Payload> {
    if es == [] then []
    else
      var front, last := es[..|es| - 1], es[|es| - 1];
      HashedBy(rows, front, hash, uuid) +
      if Accepts(last.entry, uuid) then [PayloadOf(PreviousHash(RecordAll(rows, front, hash, uuid)), last.entry)] else []
  }

  predicate Serial(rows: seq<Row>, es: seq<Recording>) {
    InOrder(rows)
    && (forall i, j :: 0 <= i < j < |es| ==> es[i].at < es[j].at)
    && (forall i, j :: 0 <= i < |rows| && 0 <= j < |es| ==> rows[i].createdAt < es[j].at)
  }

  lemma {:induction false} AppendsAdd(rows: seq<Row>, es: seq<Recording>, hash: Payload -> string, uuid: UuidColumn, limit: int)
    requires forall i :: 0 <= i < |rows| ==> rows[i].createdAt < limit
    requires forall i :: 0 <= i < |es| ==> es[i].at < limit
    ensures forall k :: 0 <= k < |RecordAll(rows, es, hash, uuid)| ==> RecordAll(rows, es, hash, uuid)[k].createdAt < limit
  {
    if es != [] {
      AppendsAdd(rows, es[..|es| - 1], hash, uuid, limit);
    }
  }

  // After any serial appends to a table whose rows predate the chain, every row links to its
  // predecessor, carries the hash of what was passed, and holds that as its columns keep it.
  lemma {:induction false} AppendsChain(rows: seq<Row>, es: seq<Recording>, hash: Payload -> string, uuid: UuidColumn)
    requires Serial(rows, es) && forall i :: 0 <= i < |rows| ==> rows[i].auditHash.None?
    ensures InOrder(RecordAll(rows, es, hash, uuid))
    ensures Chained(RecordAll(rows, es, hash, uuid), |rows|, HashedBy(rows, es, hash, uuid), hash, uuid)
  {
    assert Linked([], hash);
    if es != [] {
      var front, last := es[..|es| - 1], es[|es| - 1];
      AppendsChain(rows, front, hash, uuid);
      if Accepts(last.entry, uuid) {
        var before := RecordAll(rows, front, hash, uuid);
        AppendsAdd(rows, front, hash, uuid, last.at);
        AppendKeepsChain(before, |rows|, HashedBy(rows, front, hash, uuid), hash, uuid, last.entry, last.auditId, last.at);
      } else {
        assert HashedBy(rows, es, hash, uuid) == HashedBy(rows, front, hash, uuid);
      }
    }
  }

  /******* What the last hash determines *******/

  lemma {:induction false} LastPayloadDetermines(a: seq<Payload>, b: seq<Payload>, hash: Payload -> string)
    requires CollisionFree(hash) && Linked(a, hash) && Linked(b, hash)
    requires a == [] <==> b == []
    requires a != [] ==> a[|a| - 1] == b[|b| - 1]
    ensures a == b
    decreases |a|
  {
    if a != [] {
      var m, n := |a| - 1, |b| - 1;
      LinkedFront(a, m, hash);
      LinkedFront(b, n, hash);
      assert LinkAt(a, m, hash) && LinkAt(b, n, hash);
      LastPayloadDetermines(a[..m], b[..n], hash);
      assert a == a[..m] + [a[m]] && b == b[..n] + [b[n]];
    }
  }

  // The last hash of a chain determines the whole sequence of hashed payloads, its length
  // included, and is determined by it.
  lemma LastHashDeterminesTrail(
    rows: seq<Row>, start: nat, hashed: seq<Payload>, rows': seq<Row>, start': nat, hashed': seq<Payload>,
    hash: Payload -> string, uuid: UuidColumn)
    requires CollisionFree(hash) && Chained(rows, start, hashed, hash, uuid) && Chained(rows', start', hashed', hash, uuid)
    ensures LastHash(rows) == LastHash(rows') <==> hashed == hashed'
  {
    LastHashIs(rows, start, hashed, hash, uuid);
    LastHashIs(rows', start', hashed', hash, uuid);
    if LastHash(rows) == LastHash(rows') {
      LastPayloadDetermines(hashed, hashed', hash);
    }
  }

  // Everything hashed but the link.
  function Contents(hashed: seq<Payload>): (out: seq<Payload>)
    ensures |out| == |hashed|
  {
    seq(|hashed|, i requires 0 <= i < |hashed| => hashed[i].(previousHash := ""))
  }

  // The links add nothing to the contents.
  lemma {:induction false} ContentsDetermine(a: seq<Payload>, b: seq<Payload>, hash: Payload -> string)
    requires Linked(a, hash) && Linked(b, hash) && Contents(a) == Contents(b)
    ensures a == b
    decreases |a|
  {
    assert |Contents(a)| == |Contents(b)|;
    if a != [] {
      var n := |a| - 1;
      assert Contents(a[..n]) == Contents(a)[..n] && Contents(b[..n]) == Contents(b)[..n];
      LinkedFront(a, n, hash);
      LinkedFront(b, n, hash);
      ContentsDetermine(a[..n], b[..n], hash);
      assert Contents(a)[n] == Contents(b)[n];
      assert LinkAt(a, n, hash) && LinkAt(b, n, hash);
      assert n > 0 ==> a[..n][n - 1] == b[..n][n - 1];
      assert a == a[..n] + [a[n]] && b == b[..n] + [b[n]];
    }
  }

  // What the hash covers of the recordings that the table accepts.
  function Payloads(es: seq<Recording>, uuid: UuidColumn): seq<Payload> {
    if es == [] then []
    else
      Payloads(es[..|es| - 1], uuid) +
      if Accepts(es[|es| - 1].entry, uuid) then [PayloadOf("", es[|es| - 1].entry)] else []
  }

  lemma {:induction false} ContentsOfRecordings(rows: seq<Row>, es: seq<Recording>, hash: Payload -> string, uuid: UuidColumn)
    ensures Contents(HashedBy(rows, es, hash, uuid)) == Payloads(es, uuid)
  {
    if es != [] {
      var front, last := es[..|es| - 1], es[|es| - 1];
      ContentsOfRecordings(rows, front, hash, uuid);
      if Accepts(last.entry, uuid) {
        var p := PayloadOf(PreviousHash(RecordAll(rows, front, hash, uuid)), last.entry);
        assert Contents(HashedBy(rows, front, hash, uuid) + [p]) == Contents(HashedBy(rows, front, hash, uuid)) + [p.(previousHash := "")];
      } else {
        assert HashedBy(rows, es, hash, uuid) == HashedBy(rows, front, hash, uuid);
      }
    }
  }

  // Two serial histories on empty tables end in the same hash exactly when they recorded the
  // same actions on the same entities with the same values, member order included, and request
  // ids, in the same order. Who acted, and from where, the hash does not tell.
  lemma LastHashDeterminesHistory(es: seq<Recording>, es': seq<Recording>, hash: Payload -> string, uuid: UuidColumn)
    requires CollisionFree(hash) && Serial([], es) && Serial([], es')
    ensures LastHash(RecordAll([], es, hash, uuid)) == LastHash(RecordAll([], es', hash, uuid))
            <==> Payloads(es, uuid) == Payloads(es', uuid)
  {
    var hashed, hashed' := HashedBy([], es, hash, uuid), HashedBy([], es', hash, uuid);
    AppendsChain([], es, hash, uuid);
    AppendsChain([], es', hash, uuid);
    LastHashDeterminesTrail(
      RecordAll([], es, hash, uuid), 0, hashed, RecordAll([], es', hash, uuid), 0, hashed', hash, uuid);
    ContentsOfRecordings([], es, hash, uuid);
    ContentsOfRecordings([], es', hash, uuid);
    if Contents(hashed) == Contents(hashed') {
      ContentsDetermine(hashed, hashed', hash);
    }
  }

  lemma {:induction false} PayloadsAreDistinct(hashed: seq<Payload>, hash: Payload -> string, i: nat, j: nat)
    requires CollisionFree(hash) && Linked(hashed, hash) && i < j < |hashed|
    ensures hashed[i] != hashed[j]
    decreases i
  {
    assert LinkAt(hashed, i, hash) && LinkAt(hashed, j, hash);
    if i > 0 {
      PayloadsAreDistinct(hashed, hash, i - 1, j - 1);
    }
  }

  // The hashes of a chain are all different, so the unique index on them never refuses an append.
  lemma HashesAreDistinct(
    rows: seq<Row>, start: nat, hashed: seq<Payload>, hash: Payload -> string, uuid: UuidColumn, i: nat, j: nat)
    requires CollisionFree(hash) && Chained(rows, start, hashed, hash, uuid) && start <= i < j < |rows|
    ensures rows[i].auditHash != rows[j].auditHash
  {
    assert Signs(rows[i], hashed[i - start], hash, uuid) && Signs(rows[j], hashed[j - start], hash, uuid);
    PayloadsAreDistinct(hashed, hash, i - start, j - start);
  }

  /******* Recomputing a hash from a stored row *******/

  // The payload that the columns of a row spell out.
  function StoredPayload(row: Row): Payload
    requires row.previousHash.Some?
  {
    Payload(row.previousHash.value, row.action, row.entityType, row.entityId, row.oldValues, row.newValues, row.requestId)
  }

  // Hashing a stored row again gives its hash exactly when its objects were passed in the order
  // of the columns and its entity id in the form of the column.
  lemma RecomputesIff(row: Row, p: Payload, hash: Payload -> string, uuid: UuidColumn)
    requires CollisionFree(hash) && Signs(row, p, hash, uuid)
    ensures Some(hash(StoredPayload(row))) == row.auditHash <==>
            FieldsInOrder(p.oldValues) && FieldsInOrder(p.newValues) && StoredId(p.entityId, uuid) == p.entityId
  {
    ReadsBackIff(p.oldValues);
    ReadsBackIff(p.newValues);
    assert hash(StoredPayload(row)) == hash(p) ==> StoredPayload(row) == p;
  }

  // An entry whose old values are {"bb":1,"a":2}, for one: its row reads back as {"a":2,"bb":1}.
  lemma StoredRowNeedNotRecompute(e: Entry, auditId: string, now: int, hash: Payload -> string, uuid: UuidColumn)
    requires CollisionFree(hash) && Accepts(e, uuid)
    requires e.oldValues == Some([Field("bb", Number(1)), Field("a", Number(2))])
    ensures
      var row := RowOf([], e, auditId, now, hash, uuid);
      row.oldValues == [Field("a", Number(2)), Field("bb", Number(1))]
      && Some(hash(StoredPayload(row))) != row.auditHash
  {
    var bb, a := Field("bb", Number(1)), Field("a", Number(2));
    assert ReadsBefore("a", "bb") && !ReadsBefore("bb", "a");
    assert [bb, a][1..] == [a] && [a][1..] == [];
    assert StoredFields([a]) == InsertField(a, StoredFields([])) == [a];
    assert StoredFields([bb, a]) == InsertField(bb, [a]) == [a] + InsertField(bb, []);
    RecomputesIff(RowOf([], e, auditId, now, hash, uuid), PayloadOf("", e), hash, uuid);
  }
}
