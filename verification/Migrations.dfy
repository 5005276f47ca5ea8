// The migration runner: a manifest applied statement by statement to a database, by a process
// that may die before any of its statements.
module Migrations {
  import opened Basics

  // An entry of the manifest together with what its file holds.
  datatype Migration = Migration(id: string, checksum: string, createsLegacyMarker: bool)

  datatype Record = Record(id: string, checksum: string)

  // What survives the process: the rows of schema_migrations, the migrations whose effects the
  // schema holds, in the order they took effect, whether this runner effects them or not, and
  // the marker of a database that predates the records.
  datatype Database = Database(records: seq<Record>, effects: seq<string>, legacyMarker: bool)

  // Whether a migration's SQL succeeds on a schema that holds these effects.
  type Sql = (seq<string>, string) -> bool

  datatype Outcome =
    | Applied(ids: seq<string>)
    | ChecksumMismatch(id: string)
    | SqlFailed(id: string)
    | Died

  const LEGACY_BASELINE: set<string> := {
    "001_public_content", "002_customer_loyalty", "003_ecommerce", "004_analytics",
    "005_payment_expansion", "006_commerce_expansion", "007_offline_devices", "008_operations",
    "009_pos_offline", "010_compliance", "011_capability_scope", "012_organization_market_configuration"
  }

  function LegacyBaseline(ms: seq<Migration>, legacy: set<string>): seq<Migration> {
    if ms == [] then []
    else (if ms[0].id in legacy then [ms[0]] else []) + LegacyBaseline(ms[1..], legacy)
  }

  predicate DistinctIds(ms: seq<Migration>) {
    forall i, j :: 0 <= i < j < |ms| ==> ms[i].id != ms[j].id
  }

  function Ids(ms: seq<Migration>): (ids: seq<string>)
    ensures |ids| == |ms|
  {
    seq(|ms|, i requires 0 <= i < |ms| => ms[i].id)
  }

  function Records(ms: seq<Migration>): (rs: seq<Record>)
    ensures |rs| == |ms|
  {
    seq(|ms|, i requires 0 <= i < |ms| => Record(ms[i].id, ms[i].checksum))
  }

  // SELECT checksum FROM schema_migrations WHERE migration_id = ..
  function Prior(records: seq<Record>, id: string): (r: Option<string>)
    ensures r.Some? ==> Record(id, r.value) in records
    ensures r.None? <==> forall c :: Record(id, c) !in records
  {
    if records == [] then None
    else
      var n := |records| - 1;
      assert records == records[..n] + [records[n]];
      if records[n].id == id then
        assert records[n] == Record(id, records[n].checksum);
        Some(records[n].checksum)
      else Prior(records[..n], id)
  }

  // The transaction of one migration, committed.
  function Commit(db: Database, m: Migration): Database {
    Database(db.records + [Record(m.id, m.checksum)], db.effects + [m.id], db.legacyMarker || m.createsLegacyMarker)
  }

  // The statements of one migration: the lookup, then BEGIN, its SQL, the record and COMMIT.
  const STATEMENTS_OF_MIGRATION := 5

  // Five for each.
  function StatementsFor(migrations: nat): nat {
    5 * migrations
  }

  // The main loop from manifest entry i on. The process dies when its statements are used up;
  // whatever transaction is open is then rolled back.
  function ApplyFrom(db: Database, ms: seq<Migration>, i: nat, works: Sql, statements: nat, applied: seq<string>)
    : (Database, Outcome)
    requires i <= |ms|
    decreases |ms| - i
  {
    if i == |ms| then (db, Applied(applied))
    else if statements == 0 then (db, Died)
    else
      var m := ms[i];
      match Prior(db.records, m.id)
      case Some(checksum) =>
        if checksum != m.checksum then (db, ChecksumMismatch(m.id))
        else ApplyFrom(db, ms, i + 1, works, statements - 1, applied)
      case None =>
        if statements < 3 then (db, Died)
        else if !works(db.effects, m.id) then (db, SqlFailed(m.id))
        else if statements < STATEMENTS_OF_MIGRATION then (db, Died)
        else ApplyFrom(Commit(db, m), ms, i + 1, works, statements - STATEMENTS_OF_MIGRATION, applied + [m.id])
  }

  predicate IsLegacy(db: Database) {
    db.records == [] && db.legacyMarker
  }

  // One process: create the table, look at the state, record the baseline of a legacy database
  // row by row, then the main loop.
  function RunSpec(db: Database, ms: seq<Migration>, legacy: set<string>, works: Sql, statements: nat): (Database, Outcome) {
    if statements < 2 then (db, Died)
    else if IsLegacy(db) then
      var baseline := LegacyBaseline(ms, legacy);
      var left := statements - 2;
      if left < |baseline| then (db.(records := Records(baseline[..left])), Died)
      else ApplyFrom(db.(records := Records(baseline[..|baseline|])), ms, 0, works, left - |baseline|, Ids(baseline))
    else ApplyFrom(db, ms, 0, works, statements - 2, [])
  }

  class MigrationDatabase {
    var records: seq<Record>
    var effects: seq<string>
    var legacyMarker: bool

    constructor (db: Database)
      ensures State() == db
    {
      records, effects, legacyMarker := db.records, db.effects, db.legacyMarker;
    }

    function State(): Database
      reads this
    {
      Database(records, effects, legacyMarker)
    }

    method RunMigrations(ms: seq<Migration>, works: Sql, statements: nat) returns (outcome: Outcome)
      modifies this
      ensures (State(), outcome) == RunSpec(old(State()), ms, LEGACY_BASELINE, works, statements)
    {
      if statements < 2 {
        return Died;
      }
      var left := statements - 2;
      var applied: seq<string> := [];
      if |records| == 0 && legacyMarker {
        var baseline := LegacyBaseline(ms, LEGACY_BASELINE);
        var done := RecordBaseline(baseline, left);
        if !done {
          return Died;
        }
        left, applied := left - |baseline|, Ids(baseline);
      }
      outcome := MainLoop(ms, works, left, applied);
    }

    // One insert a row, each committed by itself.
    method RecordBaseline(baseline: seq<Migration>, statements: nat) returns (done: bool)
      requires records == []
      modifies this`records
      ensures done <==> statements >= |baseline|
      ensures records == Records(baseline[..Min(statements, |baseline|)])
    {
      var left := statements;
      for j := 0 to |baseline|
        invariant left == statements - j && left >= 0
        invariant records == Records(baseline[..j])
      {
        if left == 0 {
          return false;
        }
        assert Records(baseline[..j + 1]) == Records(baseline[..j]) + [Record(baseline[j].id, baseline[j].checksum)];
        records := records + [Record(baseline[j].id, baseline[j].checksum)];
        left := left - 1;
      }
      done := true;
    }

    method MainLoop(ms: seq<Migration>, works: Sql, statements: nat, already: seq<string>)
      returns (outcome: Outcome)
      modifies this
      ensures (State(), outcome) == ApplyFrom(old(State()), ms, 0, works, statements, already)
    {
      var left, applied := statements, already;
      for i := 0 to |ms|
        invariant left >= 0
        invariant ApplyFrom(old(State()), ms, 0, works, statements, already)
               == ApplyFrom(State(), ms, i, works, left, applied)
      {
        if left == 0 {
          return Died;
        }
        var m := ms[i];
        var prior := Prior(records, m.id);
        left := left - 1;
        if prior.Some? {
          if prior.value != m.checksum {
            return ChecksumMismatch(m.id);
          }
          continue;
        }
        if left < 2 {
          return Died;
        }
        if !works(effects, m.id) {
          return SqlFailed(m.id);
        }
        var pendingEffects, pendingMarker := effects + [m.id], legacyMarker || m.createsLegacyMarker;
        if left < 3 {
          return Died;
        }
        var pendingRecords := records + [Record(m.id, m.checksum)];
        if left < 4 {
          return Died;
        }
        records, effects, legacyMarker := pendingRecords, pendingEffects, pendingMarker;
        left := left - 4;
        applied := applied + [m.id];
      }
      outcome := Applied(applied);
    }
  }

  /******* What one run does *******/

  // The entries that have no record yet.
  function Unrecorded(records: seq<Record>, ms: seq<Migration>): seq<Migration> {
    if ms == [] then []
    else
      Unrecorded(records, ms[..|ms| - 1]) +
      if Prior(records, ms[|ms| - 1].id).None? then [ms[|ms| - 1]] else []
  }

  predicate NoMismatch(records: seq<Record>, ms: seq<Migration>) {
    forall i :: 0 <= i < |ms| ==> Prior(records, ms[i].id) == None || Prior(records, ms[i].id) == Some(ms[i].checksum)
  }

  // The effects of a start state and of the unrecorded ones of its first i entries.
  function EffectsUpTo(start: Database, ms: seq<Migration>, i: nat): seq<string>
    requires i <= |ms|
  {
    start.effects + Ids(Unrecorded(start.records, ms[..i]))
  }

  // The state after the first i entries have been dealt with.
  predicate DoneUpTo(start: Database, db: Database, ms: seq<Migration>, i: nat)
    requires i <= |ms|
  {
    db.effects == EffectsUpTo(start, ms, i)
    && db.records == start.records + Records(Unrecorded(start.records, ms[..i]))
    && NoMismatch(start.records, ms[..i])
  }

  lemma {:induction false} PriorAppend(records: seq<Record>, more: seq<Record>, id: string)
    requires forall i :: 0 <= i < |more| ==> more[i].id != id
    ensures Prior(records + more, id) == Prior(records, id)
  {
    if more == [] {
      assert records + more == records;
    } else {
      var n := |more| - 1;
      PriorAppend(records, more[..n], id);
      assert (records + more)[..|records| + n] == records + more[..n];
    }
  }

  lemma {:induction false} UnrecordedFrom(records: seq<Record>, ms: seq<Migration>, i: nat)
    requires i < |Unrecorded(records, ms)|
    ensures Unrecorded(records, ms)[i] in ms && Prior(records, Unrecorded(records, ms)[i].id).None?
  {
    var n := |ms| - 1;
    if i < |Unrecorded(records, ms[..n])| {
      UnrecordedFrom(records, ms[..n], i);
    }
  }

  lemma {:induction false} UnrecordedHas(records: seq<Record>, ms: seq<Migration>, i: nat) returns (k: nat)
    requires i < |ms| && Prior(records, ms[i].id).None?
    ensures k < |Unrecorded(records, ms)| && Unrecorded(records, ms)[k] == ms[i]
  {
    var n := |ms| - 1;
    if i < n {
      k := UnrecordedHas(records, ms[..n], i);
    } else {
      k := |Unrecorded(records, ms[..n])|;
    }
  }

  // The entries dealt with leave the lookup of every other entry as it was.
  lemma PriorOfOther(start: Database, db: Database, ms: seq<Migration>, k: nat, i: nat)
    requires DistinctIds(ms) && k <= |ms| && i < |ms| && DoneUpTo(start, db, ms, k)
    requires i >= k || Prior(start.records, ms[i].id).Some?
    ensures Prior(db.records, ms[i].id) == Prior(start.records, ms[i].id)
  {
    var done := Unrecorded(start.records, ms[..k]);
    forall j | 0 <= j < |done| ensures Records(done)[j].id != ms[i].id {
      UnrecordedFrom(start.records, ms[..k], j);
      if i >= k {
        var p :| 0 <= p < k && ms[p] == done[j];
      }
    }
    PriorAppend(start.records, Records(done), ms[i].id);
  }

  lemma {:induction false} PriorOfAdded(records: seq<Record>, done: seq<Migration>, m: Migration)
    requires m in done && forall d :: d in done && d.id == m.id ==> d == m
    ensures Prior(records + Records(done), m.id) == Some(m.checksum)
  {
    var n := |done| - 1;
    var all := records + Records(done);
    assert all[|all| - 1] == Record(done[n].id, done[n].checksum);
    if done[n].id != m.id {
      assert Records(done)[..n] == Records(done[..n]);
      assert all[..|all| - 1] == records + Records(done)[..n];
      PriorOfAdded(records, done[..n], m);
    }
  }

  // An entry dealt with has its own checksum on record.
  lemma PriorOfDone(start: Database, db: Database, ms: seq<Migration>, k: nat, i: nat)
    requires DistinctIds(ms) && i < k <= |ms| && DoneUpTo(start, db, ms, k)
    ensures Prior(db.records, ms[i].id) == Some(ms[i].checksum)
  {
    assert ms[..k][i] == ms[i];
    if Prior(start.records, ms[i].id).Some? {
      PriorOfOther(start, db, ms, k, i);
    } else {
      var done := Unrecorded(start.records, ms[..k]);
      var at := UnrecordedHas(start.records, ms[..k], i);
      forall d | d in done && d.id == ms[i].id ensures d == ms[i] {
        var j :| 0 <= j < |done| && done[j] == d;
        UnrecordedFrom(start.records, ms[..k], j);
        var p :| 0 <= p < k && ms[p] == d;
      }
      PriorOfAdded(start.records, done, ms[i]);
    }
  }

  lemma UnrecordedOneMore(records: seq<Record>, ms: seq<Migration>, i: nat)
    requires i < |ms|
    ensures Unrecorded(records, ms[..i + 1]) ==
            Unrecorded(records, ms[..i]) + (if Prior(records, ms[i].id).None? then [ms[i]] else [])
  {
    assert ms[..i + 1][..i] == ms[..i];
  }

  lemma DoneOneMore(start: Database, db: Database, ms: seq<Migration>, i: nat)
    requires i < |ms| && DoneUpTo(start, db, ms, i)
    ensures Prior(start.records, ms[i].id) == Some(ms[i].checksum) ==> DoneUpTo(start, db, ms, i + 1)
    ensures Prior(start.records, ms[i].id) == None ==> DoneUpTo(start, Commit(db, ms[i]), ms, i + 1)
  {
    var done := Unrecorded(start.records, ms[..i]);
    UnrecordedOneMore(start.records, ms, i);
    assert Ids(done + [ms[i]]) == Ids(done) + [ms[i].id];
    assert Records(done + [ms[i]]) == Records(done) + [Record(ms[i].id, ms[i].checksum)];
    assert done + [] == done;
    assert forall k :: 0 <= k < i ==> ms[..i + 1][k] == ms[..i][k];
  }

  // SQL that succeeded in its turn, for the unrecorded entries from i up to k.
  predicate WorkedInTurn(start: Database, ms: seq<Migration>, works: Sql, i: nat, k: nat)
    requires k <= |ms|
  {
    forall j :: i <= j < k && Prior(start.records, ms[j].id).None? ==> works(EffectsUpTo(start, ms, j), ms[j].id)
  }

  // How a run that had dealt with k entries ends, having dealt with k'.
  predicate Ends(start: Database, ms: seq<Migration>, works: Sql, k: nat, k': nat, result: (Database, Outcome))
    requires k <= k' <= |ms|
  {
    DoneUpTo(start, result.0, ms, k') && WorkedInTurn(start, ms, works, k, k')
    && match result.1
       case Applied(_) => k' == |ms|
       case ChecksumMismatch(id) =>
         k' < |ms| && id == ms[k'].id
         && Prior(start.records, id).Some? && Prior(start.records, id) != Some(ms[k'].checksum)
       case SqlFailed(id) =>
         k' < |ms| && id == ms[k'].id && Prior(start.records, id).None? && !works(EffectsUpTo(start, ms, k'), id)
       case Died => true
  }

  lemma EndsFromNext(start: Database, ms: seq<Migration>, works: Sql, k: nat, k': nat, result: (Database, Outcome))
    requires k < k' <= |ms| && Ends(start, ms, works, k + 1, k', result)
    requires Prior(start.records, ms[k].id).None? ==> works(EffectsUpTo(start, ms, k), ms[k].id)
    ensures Ends(start, ms, works, k, k', result)
  {
  }

  lemma ApplySkips(db: Database, ms: seq<Migration>, i: nat, works: Sql, statements: nat, applied: seq<string>)
    requires i < |ms| && statements > 0 && Prior(db.records, ms[i].id) == Some(ms[i].checksum)
    ensures ApplyFrom(db, ms, i, works, statements, applied) == ApplyFrom(db, ms, i + 1, works, statements - 1, applied)
  {
  }

  predicate CanCommit(db: Database, m: Migration, works: Sql, statements: nat) {
    Prior(db.records, m.id).None? && statements >= STATEMENTS_OF_MIGRATION && works(db.effects, m.id)
  }

  lemma ApplyCommits(db: Database, ms: seq<Migration>, i: nat, works: Sql, statements: nat, applied: seq<string>)
    requires i < |ms| && CanCommit(db, ms[i], works, statements)
    ensures ApplyFrom(db, ms, i, works, statements, applied)
         == ApplyFrom(Commit(db, ms[i]), ms, i + 1, works, statements - STATEMENTS_OF_MIGRATION, applied + [ms[i].id])
  {
  }

  lemma ApplyHalts(start: Database, db: Database, ms: seq<Migration>, k: nat, works: Sql, statements: nat, applied: seq<string>)
    requires k <= |ms| && DoneUpTo(start, db, ms, k)
    requires k < |ms| && statements > 0 ==>
               Prior(db.records, ms[k].id) == Prior(start.records, ms[k].id)
               && Prior(db.records, ms[k].id) != Some(ms[k].checksum) && !CanCommit(db, ms[k], works, statements)
    ensures Ends(start, ms, works, k, k, ApplyFrom(db, ms, k, works, statements, applied))
  {
  }

  // Wherever a run ends, it has executed and recorded, in manifest order and once each, exactly
  // the unrecorded entries before the one it stopped at.
  lemma {:induction false} ApplyResumes(
    start: Database, db: Database, ms: seq<Migration>, i: nat, works: Sql, statements: nat, applied: seq<string>, k: nat)
    returns (k': nat)
    requires DistinctIds(ms) && i <= k <= |ms| && DoneUpTo(start, db, ms, k)
    ensures k <= k' <= |ms| && Ends(start, ms, works, k, k', ApplyFrom(db, ms, i, works, statements, applied))
    decreases |ms| - i, 2
  {
    if i < k && statements == 0 {
      k' := k;
    } else if i < k {
      PriorOfDone(start, db, ms, k, i);
      ApplySkips(db, ms, i, works, statements, applied);
      k' := ApplyResumes(start, db, ms, i + 1, works, statements - 1, applied, k);
    } else if i == |ms| || statements == 0 {
      ApplyHalts(start, db, ms, k, works, statements, applied);
      k' := k;
    } else {
      k' := ApplyNext(start, db, ms, k, works, statements, applied);
    }
  }

  lemma {:induction false} ApplyNext(
    start: Database, db: Database, ms: seq<Migration>, k: nat, works: Sql, statements: nat, applied: seq<string>)
    returns (k': nat)
    requires DistinctIds(ms) && k < |ms| && DoneUpTo(start, db, ms, k) && statements > 0
    ensures k <= k' <= |ms| && Ends(start, ms, works, k, k', ApplyFrom(db, ms, k, works, statements, applied))
    decreases |ms| - k, 1
  {
    PriorOfOther(start, db, ms, k, k);
    if Prior(db.records, ms[k].id) == Some(ms[k].checksum) {
      DoneOneMore(start, db, ms, k);
      ApplySkips(db, ms, k, works, statements, applied);
      k' := ApplyResumes(start, db, ms, k + 1, works, statements - 1, applied, k + 1);
      EndsFromNext(start, ms, works, k, k', ApplyFrom(db, ms, k, works, statements, applied));
    } else if CanCommit(db, ms[k], works, statements) {
      k' := ApplyCommitted(start, db, ms, k, works, statements, applied);
    } else {
      ApplyHalts(start, db, ms, k, works, statements, applied);
      k' := k;
    }
  }

  lemma {:induction false} ApplyCommitted(
    start: Database, db: Database, ms: seq<Migration>, k: nat, works: Sql, statements: nat, applied: seq<string>)
    returns (k': nat)
    requires DistinctIds(ms) && k < |ms| && DoneUpTo(start, db, ms, k)
    requires Prior(start.records, ms[k].id).None? && CanCommit(db, ms[k], works, statements)
    ensures k <= k' <= |ms| && Ends(start, ms, works, k, k', ApplyFrom(db, ms, k, works, statements, applied))
    decreases |ms| - k, 0
  {
    var next, left, ids := Commit(db, ms[k]), statements - STATEMENTS_OF_MIGRATION, applied + [ms[k].id];
    assert works(EffectsUpTo(start, ms, k), ms[k].id);
    assert DoneUpTo(start, next, ms, k + 1) by {
      DoneOneMore(start, db, ms, k);
    }
    k' := ApplyResumes(start, next, ms, k + 1, works, left, ids, k + 1);
    EndsFromCommit(start, db, ms, works, k, k', statements, applied, ApplyFrom(next, ms, k + 1, works, left, ids));
  }

  lemma EndsFromCommit(
    start: Database, db: Database, ms: seq<Migration>, works: Sql, k: nat, k': nat, statements: nat, applied: seq<string>,
    result: (Database, Outcome))
    requires k < k' <= |ms| && Ends(start, ms, works, k + 1, k', result)
    requires works(EffectsUpTo(start, ms, k), ms[k].id) && CanCommit(db, ms[k], works, statements)
    requires result == ApplyFrom(
                         Commit(db, ms[k]), ms, k + 1, works, statements - STATEMENTS_OF_MIGRATION, applied + [ms[k].id])
    ensures Ends(start, ms, works, k, k', ApplyFrom(db, ms, k, works, statements, applied))
  {
    ApplyCommits(db, ms, k, works, statements, applied);
    EndsFromNext(start, ms, works, k, k', result);
  }

  // Only adds to a database, returns what it added, and makes no legacy database of it.
  predicate Adds(db: Database, applied: seq<string>, result: (Database, Outcome)) {
    |result.0.effects| >= |db.effects| && result.0.effects[..|db.effects|] == db.effects
    && (result.1.Applied? ==> result.1.ids == applied + result.0.effects[|db.effects|..])
    && (!IsLegacy(db) ==> !IsLegacy(result.0))
  }

  // A run only adds, what it returns is what it added, and no run makes a database a legacy one.
  lemma {:induction false} ApplyAdds(
    db: Database, ms: seq<Migration>, i: nat, works: Sql, statements: nat, applied: seq<string>)
    requires i <= |ms|
    ensures Adds(db, applied, ApplyFrom(db, ms, i, works, statements, applied))
    decreases |ms| - i
  {
    if i < |ms| && statements > 0 && Prior(db.records, ms[i].id) == Some(ms[i].checksum) {
      ApplySkips(db, ms, i, works, statements, applied);
      ApplyAdds(db, ms, i + 1, works, statements - 1, applied);
    } else if i < |ms| && CanCommit(db, ms[i], works, statements) {
      var next, left, ids := Commit(db, ms[i]), statements - STATEMENTS_OF_MIGRATION, applied + [ms[i].id];
      ApplyCommits(db, ms, i, works, statements, applied);
      ApplyAdds(next, ms, i + 1, works, left, ids);
      AddsFromCommit(db, ms[i], applied, ApplyFrom(next, ms, i + 1, works, left, ids));
    }
  }

  lemma AddsFromCommit(db: Database, m: Migration, applied: seq<string>, result: (Database, Outcome))
    requires Adds(Commit(db, m), applied + [m.id], result)
    ensures Adds(db, applied, result)
  {
    var n, after := |db.effects|, result.0.effects;
    assert after[..n] == after[..n + 1][..n];
    assert after[n] == after[..n + 1][n];
    assert after[n..] == [m.id] + after[n + 1..];
    assert (applied + [m.id]) + after[n + 1..] == applied + after[n..];
  }

  lemma ApplyStopsShort(db: Database, ms: seq<Migration>, i: nat, works: Sql, statements: nat, applied: seq<string>)
    requires i < |ms| && statements >= STATEMENTS_OF_MIGRATION
    requires Prior(db.records, ms[i].id) != Some(ms[i].checksum) && !CanCommit(db, ms[i], works, statements)
    ensures !ApplyFrom(db, ms, i, works, statements, applied).1.Died?
  {
  }

  // A process that lives long enough does not die.
  lemma {:induction false} ApplyDoesNotDie(
    db: Database, ms: seq<Migration>, i: nat, works: Sql, statements: nat, applied: seq<string>)
    requires i <= |ms| && statements >= StatementsFor(|ms| - i)
    ensures !ApplyFrom(db, ms, i, works, statements, applied).1.Died?
    decreases |ms| - i
  {
    if i < |ms| {
      if Prior(db.records, ms[i].id) == Some(ms[i].checksum) {
        ApplySkips(db, ms, i, works, statements, applied);
        ApplyDoesNotDie(db, ms, i + 1, works, statements - 1, applied);
      } else if CanCommit(db, ms[i], works, statements) {
        ApplyCommits(db, ms, i, works, statements, applied);
        ApplyDoesNotDie(Commit(db, ms[i]), ms, i + 1, works, statements - STATEMENTS_OF_MIGRATION, applied + [ms[i].id]);
      } else {
        ApplyStopsShort(db, ms, i, works, statements, applied);
      }
    }
  }

  lemma NothingDone(start: Database, ms: seq<Migration>)
    ensures DoneUpTo(start, start, ms, 0)
  {
    assert ms[..0] == [];
    assert start.effects + [] == start.effects && start.records + [] == start.records;
  }

  // A checksum mismatch stops the run before the mismatched entry and every later one: only
  // unrecorded entries that come before it have been executed.
  lemma MismatchStopsTheRun(db: Database, ms: seq<Migration>, legacy: set<string>, works: Sql, statements: nat)
    returns (stop: nat)
    requires DistinctIds(ms) && !IsLegacy(db)
    requires RunSpec(db, ms, legacy, works, statements).1.ChecksumMismatch?
    ensures
      var (db', outcome) := RunSpec(db, ms, legacy, works, statements);
      stop < |ms| && ms[stop].id == outcome.id && DoneUpTo(db, db', ms, stop)
      && Prior(db.records, ms[stop].id).Some? && Prior(db.records, ms[stop].id) != Some(ms[stop].checksum)
  {
    NothingDone(db, ms);
    stop := ApplyResumes(db, db, ms, 0, works, statements - 2, [], 0);
  }

  /******* Crashes and reruns *******/

  // One process, given how much of it happens before it dies and which SQL works.
  datatype Try = Try(works: Sql, statements: nat)

  function RunAll(db: Database, ms: seq<Migration>, legacy: set<string>, tries: seq<Try>): Database {
    if tries == [] then db
    else
      var last := tries[|tries| - 1];
      RunSpec(RunAll(db, ms, legacy, tries[..|tries| - 1]), ms, legacy, last.works, last.statements).0
  }

  // What a run on a database that is not a legacy one does, having dealt with k entries before.
  lemma RunResumes(start: Database, db: Database, ms: seq<Migration>, legacy: set<string>, works: Sql, statements: nat, k: nat)
    returns (k': nat)
    requires DistinctIds(ms) && !IsLegacy(db) && k <= |ms| && DoneUpTo(start, db, ms, k)
    ensures k <= k' <= |ms| && Ends(start, ms, works, k, k', RunSpec(db, ms, legacy, works, statements))
    ensures
      var result := RunSpec(db, ms, legacy, works, statements);
      !IsLegacy(result.0) && |result.0.effects| >= |db.effects|
      && (result.1.Applied? ==> result.1.ids == result.0.effects[|db.effects|..])
  {
    k' := k;
    if statements >= 2 {
      k' := ApplyResumes(start, db, ms, 0, works, statements - 2, [], k);
      ApplyAdds(db, ms, 0, works, statements - 2, []);
    }
  }

  // Whatever dies or fails, the runs on a database that is not a legacy one together have dealt
  // with some first entries of the manifest, as one run would have.
  lemma {:induction false} RunsResume(start: Database, ms: seq<Migration>, legacy: set<string>, tries: seq<Try>) returns (k: nat)
    requires DistinctIds(ms) && !IsLegacy(start)
    ensures k <= |ms| && DoneUpTo(start, RunAll(start, ms, legacy, tries), ms, k)
    ensures !IsLegacy(RunAll(start, ms, legacy, tries))
  {
    if tries == [] {
      NothingDone(start, ms);
      return 0;
    }
    var front, last := tries[..|tries| - 1], tries[|tries| - 1];
    k := RunsResume(start, ms, legacy, front);
    k := RunResumes(start, RunAll(start, ms, legacy, front), ms, legacy, last.works, last.statements, k);
  }

  // The end of a run that completes: every unrecorded entry executed and recorded, once and in
  // manifest order.
  predicate Complete(start: Database, after: Database, ms: seq<Migration>) {
    after.effects == start.effects + Ids(Unrecorded(start.records, ms))
    && after.records == start.records + Records(Unrecorded(start.records, ms))
  }

  // Whatever died or failed before, a run that completes leaves what one uninterrupted run would
  // have left, and returns what was missing when it began.
  lemma RunsConverge(start: Database, ms: seq<Migration>, legacy: set<string>, tries: seq<Try>, works: Sql, statements: nat)
    requires DistinctIds(ms) && !IsLegacy(start)
    requires RunSpec(RunAll(start, ms, legacy, tries), ms, legacy, works, statements).1.Applied?
    ensures
      var before := RunAll(start, ms, legacy, tries);
      var result := RunSpec(before, ms, legacy, works, statements);
      Complete(start, result.0, ms) && NoMismatch(start.records, ms)
      && |before.effects| <= |result.0.effects| && result.1 == Applied(result.0.effects[|before.effects|..])
  {
    var k := RunsResume(start, ms, legacy, tries);
    var k' := RunResumes(start, RunAll(start, ms, legacy, tries), ms, legacy, works, statements, k);
    assert ms[..|ms|] == ms;
  }

  // An uninterrupted run completes exactly when no checksum differs and the SQL of every
  // unrecorded entry works in its turn.
  lemma CompletesIff(db: Database, ms: seq<Migration>, legacy: set<string>, works: Sql, statements: nat)
    requires DistinctIds(ms) && !IsLegacy(db) && statements - 2 >= StatementsFor(|ms|)
    ensures RunSpec(db, ms, legacy, works, statements).1.Applied? <==>
            NoMismatch(db.records, ms) && WorkedInTurn(db, ms, works, 0, |ms|)
  {
    NothingDone(db, ms);
    var k := RunResumes(db, db, ms, legacy, works, statements, 0);
    ApplyDoesNotDie(db, ms, 0, works, statements - 2, []);
    assert ms[..|ms|] == ms;
  }

  // And so does one after any crashes, if the SQL works from the start state on.
  lemma RunsComplete(start: Database, ms: seq<Migration>, legacy: set<string>, tries: seq<Try>, works: Sql, statements: nat)
    requires DistinctIds(ms) && !IsLegacy(start) && statements - 2 >= StatementsFor(|ms|)
    requires NoMismatch(start.records, ms) && WorkedInTurn(start, ms, works, 0, |ms|)
    ensures RunSpec(RunAll(start, ms, legacy, tries), ms, legacy, works, statements).1.Applied?
  {
    var before := RunAll(start, ms, legacy, tries);
    var k := RunsResume(start, ms, legacy, tries);
    var k' := RunResumes(start, before, ms, legacy, works, statements, k);
    ApplyDoesNotDie(before, ms, 0, works, statements - 2, []);
  }

  predicate Fresh(db: Database) {
    db == Database([], [], false)
  }

  lemma {:induction false} AllUnrecorded(ms: seq<Migration>)
    ensures Unrecorded([], ms) == ms
  {
    if ms != [] {
      AllUnrecorded(ms[..|ms| - 1]);
    }
  }

  // On a fresh database any crashes and failures leave exactly a first part of the manifest,
  // recorded if and only if executed.
  lemma FreshStaysPrefix(db: Database, ms: seq<Migration>, legacy: set<string>, tries: seq<Try>) returns (k: nat)
    requires Fresh(db) && DistinctIds(ms)
    ensures
      var before := RunAll(db, ms, legacy, tries);
      k <= |ms| && before.effects == Ids(ms[..k]) && before.records == Records(ms[..k])
  {
    k := RunsResume(db, ms, legacy, tries);
    AllUnrecorded(ms[..k]);
    assert [] + Ids(ms[..k]) == Ids(ms[..k]) && [] + Records(ms[..k]) == Records(ms[..k]);
  }

  // A run that completes then leaves exactly the manifest, and returns what was missing.
  lemma FreshConverges(db: Database, ms: seq<Migration>, legacy: set<string>, tries: seq<Try>, works: Sql, statements: nat)
    requires Fresh(db) && DistinctIds(ms)
    requires RunSpec(RunAll(db, ms, legacy, tries), ms, legacy, works, statements).1.Applied?
    ensures
      var before := RunAll(db, ms, legacy, tries);
      var result := RunSpec(before, ms, legacy, works, statements);
      result.0.effects == Ids(ms) && result.0.records == Records(ms)
      && |before.effects| <= |ms| && result.1 == Applied(Ids(ms)[|before.effects|..])
  {
    var k := FreshStaysPrefix(db, ms, legacy, tries);
    RunsConverge(db, ms, legacy, tries, works, statements);
    AllUnrecorded(ms);
    assert [] + Ids(ms) == Ids(ms) && [] + Records(ms) == Records(ms);
  }

  // A run on a database that a run has completed changes nothing and returns nothing.
  lemma RerunIsEmpty(start: Database, db: Database, ms: seq<Migration>, legacy: set<string>, works: Sql, statements: nat)
    requires DistinctIds(ms) && !IsLegacy(db) && DoneUpTo(start, db, ms, |ms|) && statements >= 2 + |ms|
    ensures RunSpec(db, ms, legacy, works, statements) == (db, Applied([]))
  {
    CompleteRunsEmpty(start, db, ms, 0, works, statements - 2);
  }

  lemma {:induction false} CompleteRunsEmpty(start: Database, db: Database, ms: seq<Migration>, i: nat, works: Sql, statements: nat)
    requires DistinctIds(ms) && i <= |ms| && DoneUpTo(start, db, ms, |ms|) && statements >= |ms| - i
    ensures ApplyFrom(db, ms, i, works, statements, []) == (db, Applied([]))
    decreases |ms| - i
  {
    if i < |ms| {
      PriorOfDone(start, db, ms, |ms|, i);
      CompleteRunsEmpty(start, db, ms, i + 1, works, statements - 1);
    }
  }

  /******* Legacy databases *******/

  function Rest(ms: seq<Migration>, legacy: set<string>): seq<Migration> {
    if ms == [] then []
    else Rest(ms[..|ms| - 1], legacy) + if ms[|ms| - 1].id in legacy then [] else [ms[|ms| - 1]]
  }

  lemma {:induction false} BaselineIsIn(ms: seq<Migration>, legacy: set<string>, i: nat) returns (p: nat)
    requires i < |LegacyBaseline(ms, legacy)|
    ensures p < |ms| && ms[p] == LegacyBaseline(ms, legacy)[i] && ms[p].id in legacy
  {
    if ms[0].id in legacy {
      p := 0;
      if i > 0 {
        p := BaselineIsIn(ms[1..], legacy, i - 1);
        p := p + 1;
      }
    } else {
      p := BaselineIsIn(ms[1..], legacy, i);
      p := p + 1;
    }
  }

  lemma {:induction false} BaselineHas(ms: seq<Migration>, legacy: set<string>, i: nat) returns (k: nat)
    requires i < |ms| && ms[i].id in legacy
    ensures k < |LegacyBaseline(ms, legacy)| && LegacyBaseline(ms, legacy)[k] == ms[i]
  {
    k := 0;
    if i > 0 {
      k := BaselineHas(ms[1..], legacy, i - 1);
      if ms[0].id in legacy {
        k := k + 1;
      }
    }
  }

  lemma {:induction false} BaselineDistinct(ms: seq<Migration>, legacy: set<string>)
    requires DistinctIds(ms)
    ensures DistinctIds(LegacyBaseline(ms, legacy))
  {
    if ms != [] {
      BaselineDistinct(ms[1..], legacy);
      var rest := LegacyBaseline(ms[1..], legacy);
      forall i | 0 <= i < |rest| ensures rest[i].id != ms[0].id {
        var p := BaselineIsIn(ms[1..], legacy, i);
      }
    }
  }

  // Some of the entries, in the order in which they stand.
  predicate Within(part: seq<Migration>, ms: seq<Migration>) {
    part == []
    || (ms != []
        && (Within(part, ms[..|ms| - 1])
            || (part[|part| - 1] == ms[|ms| - 1] && Within(part[..|part| - 1], ms[..|ms| - 1]))))
  }

  lemma {:induction false} BaselineGrows(ms: seq<Migration>, m: Migration, legacy: set<string>)
    ensures LegacyBaseline(ms + [m], legacy) == LegacyBaseline(ms, legacy) + if m.id in legacy then [m] else []
  {
    if ms == [] {
      assert ms + [m] == [m];
    } else {
      BaselineGrows(ms[1..], m, legacy);
      assert (ms + [m])[1..] == ms[1..] + [m];
    }
  }

  lemma WithinNext(part: seq<Migration>, extra: seq<Migration>, ms: seq<Migration>, m: Migration)
    requires Within(part, ms) && (extra == [] || extra == [m])
    ensures Within(part + extra, ms + [m])
  {
    assert (ms + [m])[..|ms|] == ms;
    if extra == [] {
      assert part + extra == part;
    } else {
      assert (part + [m])[..|part|] == part;
    }
  }

  predicate Chooses(part: seq<Migration>, legacy: set<string>, inLegacy: bool) {
    forall i :: 0 <= i < |part| ==> (part[i].id in legacy) == inLegacy
  }

  predicate Divides(baseline: seq<Migration>, rest: seq<Migration>, ms: seq<Migration>, legacy: set<string>) {
    multiset(baseline) + multiset(rest) == multiset(ms)
    && Chooses(baseline, legacy, true) && Chooses(rest, legacy, false)
  }

  lemma DividesNext(baseline: seq<Migration>, rest: seq<Migration>, ms: seq<Migration>, legacy: set<string>, m: Migration)
    requires Divides(baseline, rest, ms, legacy)
    ensures
      Divides(baseline + (if m.id in legacy then [m] else []), rest + (if m.id in legacy then [] else [m]), ms + [m], legacy)
  {
    var one, other := if m.id in legacy then [m] else [], if m.id in legacy then [] else [m];
    assert Chooses(baseline + one, legacy, true) && Chooses(rest + other, legacy, false);
    assert multiset(one) + multiset(other) == multiset{m};
  }

  lemma RestGrows(ms: seq<Migration>, m: Migration, legacy: set<string>)
    ensures Rest(ms + [m], legacy) == Rest(ms, legacy) + if m.id in legacy then [] else [m]
  {
    assert (ms + [m])[..|ms|] == ms;
  }

  // The baseline and the rest divide the manifest: every entry is in exactly one of them, by
  // whether its id is a legacy one, and both keep the manifest's order.
  lemma {:induction false} BaselineAndRestDivide(
    ms: seq<Migration>, legacy: set<string>, baseline: seq<Migration>, rest: seq<Migration>)
    requires baseline == LegacyBaseline(ms, legacy) && rest == Rest(ms, legacy)
    ensures Divides(baseline, rest, ms, legacy) && Within(baseline, ms) && Within(rest, ms)
    decreases |ms|
  {
    if ms != [] {
      var front, m := ms[..|ms| - 1], ms[|ms| - 1];
      assert ms == front + [m];
      BaselineGrows(front, m, legacy);
      RestGrows(front, m, legacy);
      BaselineAndRestDivide(front, legacy, LegacyBaseline(front, legacy), Rest(front, legacy));
      DividesNext(LegacyBaseline(front, legacy), Rest(front, legacy), front, legacy, m);
      WithinNext(LegacyBaseline(front, legacy), if m.id in legacy then [m] else [], front, m);
      WithinNext(Rest(front, legacy), if m.id in legacy then [] else [m], front, m);
    }
  }

  // The records of the first j rows of the baseline.
  function FirstRows(ms: seq<Migration>, legacy: set<string>, j: nat): (rows: seq<Record>)
    requires j <= |LegacyBaseline(ms, legacy)|
    ensures |rows| == j
  {
    Records(LegacyBaseline(ms, legacy)[..j])
  }

  // A legacy database whose first j baseline rows are recorded.
  function PartlyRecorded(db: Database, ms: seq<Migration>, legacy: set<string>, j: nat): Database
    requires j <= |LegacyBaseline(ms, legacy)|
  {
    db.(records := FirstRows(ms, legacy, j))
  }

  lemma {:induction false} PriorOfRecords(ms: seq<Migration>, k: nat, i: nat)
    requires DistinctIds(ms) && k <= |ms| && i < |ms|
    ensures Prior(Records(ms[..k]), ms[i].id) == if i < k then Some(ms[i].checksum) else None
  {
    if k > 0 {
      assert Records(ms[..k])[..k - 1] == Records(ms[..k - 1]);
      PriorOfRecords(ms, k - 1, i);
    }
  }

  // Among the first j rows of the baseline, entry i is on record exactly when it is one of them.
  lemma PriorOfBaseline(ms: seq<Migration>, legacy: set<string>, j: nat, i: nat)
    requires DistinctIds(ms) && j <= |LegacyBaseline(ms, legacy)| && i < |ms|
    ensures Prior(FirstRows(ms, legacy, j), ms[i].id) ==
            if ms[i] in LegacyBaseline(ms, legacy)[..j] then Some(ms[i].checksum) else None
    ensures ms[i].id !in legacy ==> ms[i] !in LegacyBaseline(ms, legacy)[..j]
    ensures ms[i].id in legacy ==> ms[i] in LegacyBaseline(ms, legacy)
  {
    var baseline := LegacyBaseline(ms, legacy);
    BaselineDistinct(ms, legacy);
    if ms[i].id in legacy {
      var k := BaselineHas(ms, legacy, i);
      PriorOfRecords(baseline, j, k);
      assert ms[i] in baseline[..j] <==> k < j;
    } else {
      var rows := FirstRows(ms, legacy, j);
      forall k | 0 <= k < j ensures rows[k].id != ms[i].id && baseline[k] != ms[i] {
        var p := BaselineIsIn(ms, legacy, k);
      }
      PriorAppend([], rows, ms[i].id);
      assert [] + rows == rows;
    }
  }

  lemma BaselineNeverMismatches(ms: seq<Migration>, legacy: set<string>, j: nat)
    requires DistinctIds(ms) && j <= |LegacyBaseline(ms, legacy)|
    ensures NoMismatch(FirstRows(ms, legacy, j), ms)
  {
    forall i | 0 <= i < |ms|
      ensures Prior(FirstRows(ms, legacy, j), ms[i].id) == None || Prior(FirstRows(ms, legacy, j), ms[i].id) == Some(ms[i].checksum)
    {
      PriorOfBaseline(ms, legacy, j, i);
    }
  }

  // With the whole baseline on record, what is left is the rest of the manifest.
  lemma {:induction false} UnrecordedIsRest(ms: seq<Migration>, legacy: set<string>, n: nat)
    requires DistinctIds(ms) && n <= |ms|
    ensures Unrecorded(FirstRows(ms, legacy, |LegacyBaseline(ms, legacy)|), ms[..n]) == Rest(ms[..n], legacy)
  {
    if n > 0 {
      var baseline := LegacyBaseline(ms, legacy);
      assert ms[..n][..n - 1] == ms[..n - 1];
      UnrecordedIsRest(ms, legacy, n - 1);
      PriorOfBaseline(ms, legacy, |baseline|, n - 1);
      assert baseline[..|baseline|] == baseline;
    }
  }

  lemma StatementsLeft(ms: seq<Migration>, legacy: set<string>, statements: nat)
    requires statements >= EnoughStatements(ms, legacy)
    ensures statements - 2 - |LegacyBaseline(ms, legacy)| >= StatementsFor(|ms|)
  {
  }

  function EnoughStatements(ms: seq<Migration>, legacy: set<string>): nat {
    2 + |LegacyBaseline(ms, legacy)| + StatementsFor(|ms|)
  }

  // The main loop of a run that has just recorded the baseline.
  function AfterBaseline(db: Database, ms: seq<Migration>, legacy: set<string>, works: Sql, statements: nat): (Database, Outcome) {
    var baseline := LegacyBaseline(ms, legacy);
    ApplyFrom(PartlyRecorded(db, ms, legacy, |baseline|), ms, 0, works, statements, Ids(baseline))
  }

  lemma LegacyRunUnfolds(db: Database, ms: seq<Migration>, legacy: set<string>, works: Sql, statements: nat)
    requires IsLegacy(db) && statements >= 2 + |LegacyBaseline(ms, legacy)|
    ensures RunSpec(db, ms, legacy, works, statements)
         == AfterBaseline(db, ms, legacy, works, statements - 2 - |LegacyBaseline(ms, legacy)|)
  {
  }

  // A process that dies while it records the baseline, or just after, leaves its first rows.
  lemma LegacyCrash(db: Database, ms: seq<Migration>, legacy: set<string>, works: Sql, j: nat)
    requires IsLegacy(db) && j <= |LegacyBaseline(ms, legacy)|
    ensures
      var result := RunSpec(db, ms, legacy, works, 2 + j);
      result.0 == PartlyRecorded(db, ms, legacy, j) && (ms != [] ==> result.1.Died?)
  {
    if j == |LegacyBaseline(ms, legacy)| {
      LegacyRunUnfolds(db, ms, legacy, works, 2 + j);
    }
  }

  // The SQL of every entry outside the baseline works in its turn, on top of what is there.
  predicate RestWorks(db: Database, ms: seq<Migration>, legacy: set<string>, works: Sql) {
    forall i :: 0 <= i < |ms| && ms[i].id !in legacy ==> works(db.effects + Ids(Rest(ms[..i], legacy)), ms[i].id)
  }

  // What an uninterrupted run leaves of a legacy database: the baseline recorded but not
  // executed, and the rest executed and recorded.
  predicate LegacyComplete(db: Database, after: Database, ms: seq<Migration>, legacy: set<string>) {
    after.effects == db.effects + Ids(Rest(ms, legacy))
    && after.records == Records(LegacyBaseline(ms, legacy)) + Records(Rest(ms, legacy))
  }

  // It completes exactly when the rest works, and returns all entries.
  predicate LegacyEnds(db: Database, ms: seq<Migration>, legacy: set<string>, works: Sql, result: (Database, Outcome)) {
    (result.1.Applied? <==> RestWorks(db, ms, legacy, works))
    && (result.1.Applied? ==>
          LegacyComplete(db, result.0, ms, legacy)
          && result.1.ids == Ids(LegacyBaseline(ms, legacy)) + Ids(Rest(ms, legacy)))
  }

  lemma RestWorksInTurn(db: Database, ms: seq<Migration>, legacy: set<string>, works: Sql)
    requires DistinctIds(ms)
    ensures
      WorkedInTurn(PartlyRecorded(db, ms, legacy, |LegacyBaseline(ms, legacy)|), ms, works, 0, |ms|)
      <==> RestWorks(db, ms, legacy, works)
  {
    var baseline := LegacyBaseline(ms, legacy);
    var recorded := PartlyRecorded(db, ms, legacy, |baseline|);
    assert baseline[..|baseline|] == baseline;
    forall i | 0 <= i < |ms|
      ensures Prior(recorded.records, ms[i].id).None? <==> ms[i].id !in legacy
      ensures EffectsUpTo(recorded, ms, i) == db.effects + Ids(Rest(ms[..i], legacy))
    {
      PriorOfBaseline(ms, legacy, |baseline|, i);
      UnrecordedIsRest(ms, legacy, i);
    }
  }

  lemma AfterBaselineEnds(db: Database, ms: seq<Migration>, legacy: set<string>, works: Sql, statements: nat)
    requires DistinctIds(ms) && statements >= StatementsFor(|ms|)
    ensures LegacyEnds(db, ms, legacy, works, AfterBaseline(db, ms, legacy, works, statements))
  {
    var baseline := LegacyBaseline(ms, legacy);
    var recorded := PartlyRecorded(db, ms, legacy, |baseline|);
    NothingDone(recorded, ms);
    var k := ApplyResumes(recorded, recorded, ms, 0, works, statements, Ids(baseline), 0);
    ApplyAdds(recorded, ms, 0, works, statements, Ids(baseline));
    ApplyDoesNotDie(recorded, ms, 0, works, statements, Ids(baseline));
    BaselineNeverMismatches(ms, legacy, |baseline|);
    RestWorksInTurn(db, ms, legacy, works);
    UnrecordedIsRest(ms, legacy, |ms|);
    assert ms[..|ms|] == ms && baseline[..|baseline|] == baseline;
  }

  // An uninterrupted run on a legacy database completes exactly when the rest of the manifest
  // works; then it has recorded the baseline without executing it and executed exactly the rest.
  lemma LegacyRun(db: Database, ms: seq<Migration>, legacy: set<string>, works: Sql, statements: nat)
    requires DistinctIds(ms) && IsLegacy(db) && statements >= EnoughStatements(ms, legacy)
    ensures LegacyEnds(db, ms, legacy, works, RunSpec(db, ms, legacy, works, statements))
  {
    StatementsLeft(ms, legacy, statements);
    var left := statements - 2 - |LegacyBaseline(ms, legacy)|;
    LegacyRunUnfolds(db, ms, legacy, works, statements);
    AfterBaselineEnds(db, ms, legacy, works, left);
  }

  /******* A death amid the baseline *******/

  // The effects of the baseline are in place, as the marker of a legacy database promises.
  predicate BaselineInPlace(db: Database, ms: seq<Migration>, legacy: set<string>) {
    forall i :: 0 <= i < |ms| && ms[i].id in legacy ==> ms[i].id in db.effects
  }

  // The SQL of the baseline fails on a schema that already holds its effects: each of its files
  // creates a type, table, index or trigger without asking whether it exists.
  ghost predicate BaselineFailsTwice(legacy: set<string>, works: Sql) {
    forall effects, id :: id in legacy && id in effects ==> !works(effects, id)
  }

  ghost predicate AllFailTwice(legacy: set<string>, tries: seq<Try>) {
    forall i :: 0 <= i < |tries| ==> BaselineFailsTwice(legacy, tries[i].works)
  }

  // Nothing gets past the first baseline entry that is not on record.
  lemma StuckBefore(start: Database, ms: seq<Migration>, legacy: set<string>, works: Sql, k: nat, k': nat, p: nat, result: (Database, Outcome))
    requires k <= p < |ms| && k <= k' <= |ms| && Ends(start, ms, works, k, k', result)
    requires ms[p].id in legacy && ms[p].id in start.effects && Prior(start.records, ms[p].id).None?
    requires BaselineFailsTwice(legacy, works)
    ensures k' <= p && !result.1.Applied?
  {
    assert ms[p].id in EffectsUpTo(start, ms, p);
  }

  lemma {:induction false} RunsAreStuck(start: Database, ms: seq<Migration>, legacy: set<string>, tries: seq<Try>, p: nat) returns (k: nat)
    requires DistinctIds(ms) && !IsLegacy(start) && AllFailTwice(legacy, tries)
    requires p < |ms| && ms[p].id in legacy && ms[p].id in start.effects && Prior(start.records, ms[p].id).None?
    ensures k <= p && DoneUpTo(start, RunAll(start, ms, legacy, tries), ms, k) && !IsLegacy(RunAll(start, ms, legacy, tries))
  {
    if tries == [] {
      NothingDone(start, ms);
      return 0;
    }
    var front, last := tries[..|tries| - 1], tries[|tries| - 1];
    k := RunsAreStuck(start, ms, legacy, front, p);
    var before := RunAll(start, ms, legacy, front);
    var k' := RunResumes(start, before, ms, legacy, last.works, last.statements, k);
    StuckBefore(start, ms, legacy, last.works, k, k', p, RunSpec(before, ms, legacy, last.works, last.statements));
    k := k';
  }

  // A database left with some but not all baseline rows never completes a run again, whatever
  // runs there are and however long they last, and no baseline row is added to those it has.
  lemma PartlyRecordedIsStuck(
    db: Database, ms: seq<Migration>, legacy: set<string>, j: nat, tries: seq<Try>, works: Sql, statements: nat)
    requires DistinctIds(ms) && IsLegacy(db) && BaselineInPlace(db, ms, legacy) && 0 < j < |LegacyBaseline(ms, legacy)|
    requires AllFailTwice(legacy, tries) && BaselineFailsTwice(legacy, works)
    ensures
      var before := RunAll(PartlyRecorded(db, ms, legacy, j), ms, legacy, tries);
      !RunSpec(before, ms, legacy, works, statements).1.Applied?
      && Prior(before.records, LegacyBaseline(ms, legacy)[j].id).None?
  {
    var start, baseline := PartlyRecorded(db, ms, legacy, j), LegacyBaseline(ms, legacy);
    var p := BaselineIsIn(ms, legacy, j);
    BaselineDistinct(ms, legacy);
    PriorOfRecords(baseline, j, j);
    var k := RunsAreStuck(start, ms, legacy, tries, p);
    var before := RunAll(start, ms, legacy, tries);
    PriorOfOther(start, before, ms, k, p);
    var k' := RunResumes(start, before, ms, legacy, works, statements, k);
    StuckBefore(start, ms, legacy, works, k, k', p, RunSpec(before, ms, legacy, works, statements));
  }

  lemma RerunAfterBaseline(db: Database, ms: seq<Migration>, legacy: set<string>, works: Sql, statements: nat)
    requires DistinctIds(ms) && IsLegacy(db) && LegacyBaseline(ms, legacy) != [] && RestWorks(db, ms, legacy, works)
    requires statements >= EnoughStatements(ms, legacy)
    ensures
      var result := RunSpec(PartlyRecorded(db, ms, legacy, |LegacyBaseline(ms, legacy)|), ms, legacy, works, statements);
      result.1.Applied? && LegacyComplete(db, result.0, ms, legacy)
  {
    var baseline := LegacyBaseline(ms, legacy);
    var recorded := PartlyRecorded(db, ms, legacy, |baseline|);
    BaselineNeverMismatches(ms, legacy, |baseline|);
    RestWorksInTurn(db, ms, legacy, works);
    CompletesIff(recorded, ms, legacy, works, statements);
    RunsConverge(recorded, ms, legacy, [], works, statements);
    UnrecordedIsRest(ms, legacy, |ms|);
    assert ms[..|ms|] == ms && baseline[..|baseline|] == baseline;
  }

  // A legacy process that dies, here after 2 + j statements with j rows recorded, is made good exactly when
  // those are none of them or all of them: then the next uninterrupted run completes and leaves
  // what it would have left undisturbed. In between, no later run ever completes.
  lemma LegacyCrashConvergesIff(
    db: Database, ms: seq<Migration>, legacy: set<string>, first: Sql, j: nat, tries: seq<Try>, works: Sql, statements: nat)
    requires DistinctIds(ms) && IsLegacy(db) && BaselineInPlace(db, ms, legacy) && j <= |LegacyBaseline(ms, legacy)|
    requires RestWorks(db, ms, legacy, works) && BaselineFailsTwice(legacy, works) && AllFailTwice(legacy, tries)
    requires statements >= EnoughStatements(ms, legacy)
    ensures
      var left := RunSpec(db, ms, legacy, first, 2 + j).0;
      var next := RunSpec(left, ms, legacy, works, statements);
      (next.1.Applied? <==> j == 0 || j == |LegacyBaseline(ms, legacy)|)
      && (next.1.Applied? ==> LegacyComplete(db, next.0, ms, legacy))
      && (!next.1.Applied? ==> !RunSpec(RunAll(left, ms, legacy, tries), ms, legacy, works, statements).1.Applied?)
  {
    LegacyCrash(db, ms, legacy, first, j);
    if j == 0 {
      assert FirstRows(ms, legacy, 0) == [];
      LegacyRun(db, ms, legacy, works, statements);
    } else if j == |LegacyBaseline(ms, legacy)| {
      RerunAfterBaseline(db, ms, legacy, works, statements);
    } else {
      PartlyRecordedIsStuck(db, ms, legacy, j, [], works, statements);
      PartlyRecordedIsStuck(db, ms, legacy, j, tries, works, statements);
    }
  }
}
