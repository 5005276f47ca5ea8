// The retrying event queue of the analytics pipeline, worked by one worker.
module EventQueue {
  import opened Basics

  datatype Status = Pending | Processing | Processed | Retry | Failed

  datatype Event = Event(
    id: int,
    priority: int,
    createdAt: int,
    status: Status,
    attempts: nat,
    maxRetries: nat,
    startedAt: Option<int>,
    processedAt: Option<int>,
    nextRetryAt: Option<int>)

  // A record of one time the handler was started: when, and the delay it was put off by, if any.
  datatype Attempt = Attempt(id: int, at: int, delay: Option<int>)

  datatype Queue = Queue(rows: seq<Event>, now: int, attempts: seq<Attempt>)

  const MINUTE := 60 * 1000

  function Pow2(n: nat): (r: nat)
    ensures r >= 1
  {
    if n == 0 then 1 else 2 * Pow2(n - 1)
  }

  /******* Choosing the next event *******/

  predicate Eligible(e: Event, now: int) {
    e.status == Pending || (e.status == Retry && e.nextRetryAt.Some? && e.nextRetryAt.value <= now)
  }

  // ORDER BY priority ASC, created_at ASC
  predicate NoLater(a: Event, b: Event) {
    a.priority < b.priority || (a.priority == b.priority && a.createdAt <= b.createdAt)
  }

  predicate IsNext(rows: seq<Event>, now: int, i: int) {
    0 <= i < |rows| && Eligible(rows[i], now)
    && forall j :: 0 <= j < |rows| && Eligible(rows[j], now) ==> NoLater(rows[i], rows[j])
  }

  predicate Idle(q: Queue) {
    forall j :: 0 <= j < |q.rows| ==> !Eligible(q.rows[j], q.now)
  }

  // Event i may be worked on now, and no event that may be has a smaller priority number, or the
  // same one and an earlier creation.
  predicate MostUrgent(rows: seq<Event>, now: int, i: int) {
    0 <= i < |rows| && IsDue(rows[i], now)
    && forall j :: 0 <= j < |rows| && IsDue(rows[j], now) ==>
         rows[i].priority <= rows[j].priority
         && (rows[i].priority == rows[j].priority ==> rows[i].createdAt <= rows[j].createdAt)
  }

  // Pending, or waiting for a retry whose time has come.
  predicate IsDue(e: Event, now: int) {
    match e.status
    case Pending => true
    case Retry => e.nextRetryAt.Some? && e.nextRetryAt.value <= now
    case _ => false
  }

  lemma NextIsMostUrgent(rows: seq<Event>, now: int, i: int)
    ensures IsNext(rows, now, i) <==> MostUrgent(rows, now, i)
  {
    assert forall e :: Eligible(e, now) <==> IsDue(e, now);
  }

  /******* One attempt *******/

  function Start(e: Event, now: int): Event {
    e.(status := Processing, startedAt := Some(now), attempts := e.attempts + 1)
  }

  // The retry test reads the attempts from before the attempt that has just been counted.
  function DelayAfter(e: Event): Option<int> {
    if e.attempts < e.maxRetries then Some(Pow2(e.attempts) * MINUTE) else None
  }

  function Finish(e: Event, ok: bool, now: int): Event {
    var started := Start(e, now);
    if ok then started.(status := Processed, processedAt := Some(now))
    else if DelayAfter(e).Some? then started.(status := Retry, nextRetryAt := Some(now + DelayAfter(e).value))
    else started.(status := Failed, processedAt := Some(now))
  }

  // What an attempt leaves of the event: another attempt counted; processed, or put off by 2^n
  // minutes where n attempts had been made before, or failed when they were all that it had.
  lemma AttemptLeaves(e: Event, ok: bool, now: int)
    ensures
      var after := Finish(e, ok, now);
      after.attempts == e.attempts + 1 && after.startedAt == Some(now)
      && after.(status := e.status, attempts := e.attempts, startedAt := e.startedAt,
                processedAt := e.processedAt, nextRetryAt := e.nextRetryAt) == e
      && if ok then after.status == Processed && after.processedAt == Some(now) && after.nextRetryAt == e.nextRetryAt
         else if e.attempts < e.maxRetries
         then after.status == Retry && after.nextRetryAt == Some(now + Pow2(e.attempts) * 60_000) && after.processedAt == e.processedAt
         else after.status == Failed && after.processedAt == Some(now) && after.nextRetryAt == e.nextRetryAt
  {
  }

  function Process(q: Queue, i: nat, ok: bool): Queue
    requires i < |q.rows|
  {
    var e := q.rows[i];
    q.(rows := q.rows[i := Finish(e, ok, q.now)],
       attempts := q.attempts + [Attempt(e.id, q.now, if ok then None else DelayAfter(e))])
  }

  // The worker dies after the event was marked and before the outcome was recorded.
  function Abandon(q: Queue, i: nat): Queue
    requires i < |q.rows|
  {
    q.(rows := q.rows[i := Start(q.rows[i], q.now)],
       attempts := q.attempts + [Attempt(q.rows[i].id, q.now, None)])
  }

  function Restart(e: Event): Event {
    e.(status := Pending, attempts := 0)
  }

  function ReplayRow(e: Event, id: int): Event {
    if e.id == id && e.status == Failed then Restart(e).(nextRetryAt := None) else e
  }

  function ReplayOne(rows: seq<Event>, id: int): (out: seq<Event>)
    ensures |out| == |rows|
  {
    seq(|rows|, i requires 0 <= i < |rows| => ReplayRow(rows[i], id))
  }

  predicate Stuck(e: Event, now: int, timeout: int) {
    e.status == Processing && e.startedAt.Some? && e.startedAt.value < now - timeout * MINUTE
  }

  function ResetRow(e: Event, now: int, timeout: int): Event {
    if Stuck(e, now, timeout) then Restart(e).(startedAt := None) else e
  }

  function Reset(rows: seq<Event>, now: int, timeout: int): (out: seq<Event>)
    ensures |out| == |rows|
  {
    seq(|rows|, i requires 0 <= i < |rows| => ResetRow(rows[i], now, timeout))
  }

  predicate Old(e: Event, now: int, days: int) {
    e.status == Processed && e.processedAt.Some? && e.processedAt.value < now - days * 24 * 60 * MINUTE
  }

  function WithoutOld(rows: seq<Event>, now: int, days: int): seq<Event> {
    if rows == [] then []
    else
      var n := |rows| - 1;
      WithoutOld(rows[..n], now, days) + if Old(rows[n], now, days) then [] else [rows[n]]
  }

  /******* Runs *******/

  datatype Action =
    | Work(i: nat, ok: bool)
    | Crash(i: nat)
    | Wait(ms: nat)
    | Enqueue(event: Event)
    | Replay(id: int)
    | ResetStuck(timeout: int)
    | Cleanup(days: int)

  predicate Unused(q: Queue, id: int) {
    (forall i :: 0 <= i < |q.rows| ==> q.rows[i].id != id)
    && forall i :: 0 <= i < |q.attempts| ==> q.attempts[i].id != id
  }

  function Next(q: Queue, a: Action): Option<Queue> {
    match a
    case Work(i, ok) => if IsNext(q.rows, q.now, i) then Some(Process(q, i, ok)) else None
    case Crash(i) => if IsNext(q.rows, q.now, i) then Some(Abandon(q, i)) else None
    case Wait(ms) => Some(q.(now := q.now + ms))
    case Enqueue(e) =>
      if e.status == Pending && e.attempts == 0 && Unused(q, e.id) then Some(q.(rows := q.rows + [e])) else None
    case Replay(id) => Some(q.(rows := ReplayOne(q.rows, id)))
    case ResetStuck(timeout) => Some(q.(rows := Reset(q.rows, q.now, timeout)))
    case Cleanup(days) => Some(q.(rows := WithoutOld(q.rows, q.now, days)))
  }

  function Run(q: Queue, actions: seq<Action>): Option<Queue>
    decreases |actions|
  {
    if actions == [] then Some(q)
    else
      match Next(q, actions[0])
      case None => None
      case Some(next) => Run(next, actions[1..])
  }

  lemma RunStep(q: Queue, a: Action, next: Queue, rest: seq<Action>)
    requires Next(q, a) == Some(next)
    ensures Run(q, [a] + rest) == Run(next, rest)
  {
    assert ([a] + rest)[1..] == rest;
  }

  // No event is given its attempts back.
  predicate Calm(actions: seq<Action>) {
    forall i :: 0 <= i < |actions| ==> !actions[i].Replay? && !actions[i].ResetStuck?
  }

  /******* The history of one event *******/

  datatype History = History(count: nat, delays: seq<int>, first: int, last: int)

  function HistoryOf(attempts: seq<Attempt>, id: int): History {
    if attempts == [] then History(0, [], 0, 0)
    else
      var before, a := HistoryOf(attempts[..|attempts| - 1], id), attempts[|attempts| - 1];
      if a.id != id then before
      else
        History(before.count + 1,
                before.delays + (if a.delay.Some? then [a.delay.value] else []),
                if before.count == 0 then a.at else before.first,
                a.at)
  }

  lemma HistoryAppend(attempts: seq<Attempt>, a: Attempt, id: int)
    ensures
      var before, after := HistoryOf(attempts, id), HistoryOf(attempts + [a], id);
      after == if a.id != id then before
               else History(before.count + 1,
                            before.delays + (if a.delay.Some? then [a.delay.value] else []),
                            if before.count == 0 then a.at else before.first,
                            a.at)
  {
    assert (attempts + [a])[..|attempts|] == attempts;
  }

  lemma {:induction false} UnusedHasNoHistory(attempts: seq<Attempt>, id: int)
    requires forall i :: 0 <= i < |attempts| ==> attempts[i].id != id
    ensures HistoryOf(attempts, id) == History(0, [], 0, 0)
  {
    if attempts != [] {
      UnusedHasNoHistory(attempts[..|attempts| - 1], id);
    }
  }

  // The delays 1, 2, 4, .. minutes.
  function Backoff(n: nat): (delays: seq<int>)
    ensures |delays| == n
  {
    if n == 0 then [] else Backoff(n - 1) + [Pow2(n - 1) * MINUTE]
  }

  lemma {:induction false} BackoffSum(n: nat)
    ensures Sum(Backoff(n)) == (Pow2(n) - 1) * 60_000
  {
    if n > 0 {
      BackoffSum(n - 1);
      SumAppend(Backoff(n - 1), Pow2(n - 1) * MINUTE);
    }
  }

  lemma {:induction false} BackoffDoubles(n: nat, i: nat)
    requires i < n
    ensures Backoff(n)[i] == Pow2(i) * MINUTE
    ensures if i == 0 then Backoff(n)[i] == 60_000 else Backoff(n)[i] == 2 * Backoff(n)[i - 1]
  {
    if i < n - 1 {
      BackoffDoubles(n - 1, i);
    } else if i > 0 {
      BackoffDoubles(n - 1, i - 1);
    }
  }

  // What the attempts recorded for an event say about its row.
  predicate Accounted(e: Event, h: History, now: int) {
    h.count == e.attempts
    && (h.count > 0 ==> h.last <= now)
    && match e.status
       case Pending => e.attempts == 0 && h.delays == []
       case Retry =>
         1 <= e.attempts <= e.maxRetries && h.delays == Backoff(e.attempts)
         && e.nextRetryAt.Some? && e.nextRetryAt.value == h.last + Pow2(e.attempts - 1) * MINUTE
         && h.last - h.first >= Sum(Backoff(e.attempts - 1))
       case Failed =>
         e.attempts == e.maxRetries + 1 && h.delays == Backoff(e.maxRetries)
         && h.last - h.first >= Sum(Backoff(e.maxRetries))
       case _ =>
         1 <= e.attempts <= e.maxRetries + 1 && h.delays == Backoff(e.attempts - 1)
         && h.last - h.first >= Sum(Backoff(e.attempts - 1))
  }

  predicate DistinctIds(rows: seq<Event>) {
    forall i, j :: 0 <= i < j < |rows| ==> rows[i].id != rows[j].id
  }

  predicate QueueInv(q: Queue) {
    DistinctIds(q.rows)
    && forall i :: 0 <= i < |q.rows| ==> Accounted(q.rows[i], HistoryOf(q.attempts, q.rows[i].id), q.now)
  }

  // An eligible event has waited for all of its delays.
  lemma EligibleHasWaited(e: Event, h: History, now: int)
    requires Accounted(e, h, now) && Eligible(e, now)
    ensures h.delays == Backoff(e.attempts) && e.attempts <= e.maxRetries
    ensures now - (if h.count == 0 then now else h.first) >= Sum(Backoff(e.attempts))
  {
    if e.status == Retry {
      SumAppend(Backoff(e.attempts - 1), Pow2(e.attempts - 1) * MINUTE);
    }
  }

  lemma AttemptIsAccounted(e: Event, h: History, now: int, ok: bool, crash: bool)
    requires Accounted(e, h, now) && Eligible(e, now)
    ensures
      var delay := if ok || crash then None else DelayAfter(e);
      var h' := History(h.count + 1, h.delays + (if delay.Some? then [delay.value] else []),
                        if h.count == 0 then now else h.first, now);
      Accounted(if crash then Start(e, now) else Finish(e, ok, now), h', now)
  {
    EligibleHasWaited(e, h, now);
    assert h.delays + [] == h.delays;
  }

  // One row is rewritten and one attempt recorded for it: the other rows are not concerned.
  lemma OneRowChanges(q: Queue, i: nat, e: Event, a: Attempt)
    requires QueueInv(q) && i < |q.rows| && a.id == e.id == q.rows[i].id && a.at == q.now
    requires Accounted(e, HistoryOf(q.attempts + [a], e.id), q.now)
    ensures QueueInv(q.(rows := q.rows[i := e], attempts := q.attempts + [a]))
  {
    var rows := q.rows[i := e];
    forall j | 0 <= j < |rows| ensures Accounted(rows[j], HistoryOf(q.attempts + [a], rows[j].id), q.now) {
      HistoryAppend(q.attempts, a, rows[j].id);
    }
  }

  lemma WorkKeepsInv(q: Queue, i: nat, ok: bool, crash: bool)
    requires QueueInv(q) && IsNext(q.rows, q.now, i)
    ensures QueueInv(if crash then Abandon(q, i) else Process(q, i, ok))
  {
    var e := q.rows[i];
    var a := Attempt(e.id, q.now, if ok || crash then None else DelayAfter(e));
    HistoryAppend(q.attempts, a, e.id);
    AttemptIsAccounted(e, HistoryOf(q.attempts, e.id), q.now, ok, crash);
    OneRowChanges(q, i, if crash then Start(e, q.now) else Finish(e, ok, q.now), a);
  }

  lemma {:induction false} WithoutOldKeeps(rows: seq<Event>, now: int, days: int)
    requires DistinctIds(rows)
    ensures DistinctIds(WithoutOld(rows, now, days))
    ensures forall e :: e in WithoutOld(rows, now, days) ==> e in rows
  {
    if rows != [] {
      var n := |rows| - 1;
      WithoutOldKeeps(rows[..n], now, days);
      var front := WithoutOld(rows[..n], now, days);
      forall i | 0 <= i < |front| ensures front[i].id != rows[n].id {
        assert front[i] in rows[..n];
      }
    }
  }

  lemma StepKeepsInv(q: Queue, a: Action)
    requires QueueInv(q) && Next(q, a).Some? && !a.Replay? && !a.ResetStuck?
    ensures QueueInv(Next(q, a).value)
  {
    match a {
      case Work(i, ok) => WorkKeepsInv(q, i, ok, false);
      case Crash(i) => WorkKeepsInv(q, i, false, true);
      case Wait(ms) =>
      case Enqueue(e) => UnusedHasNoHistory(q.attempts, e.id);
      case Cleanup(days) =>
        WithoutOldKeeps(q.rows, q.now, days);
        var rows := WithoutOld(q.rows, q.now, days);
        forall i | 0 <= i < |rows| ensures Accounted(rows[i], HistoryOf(q.attempts, rows[i].id), q.now) {
          assert rows[i] in q.rows;
        }
    }
  }

  lemma {:induction false} RunKeepsInv(q: Queue, actions: seq<Action>)
    requires QueueInv(q) && Calm(actions) && Run(q, actions).Some?
    ensures QueueInv(Run(q, actions).value)
    decreases |actions|
  {
    if actions != [] {
      StepKeepsInv(q, actions[0]);
      RunKeepsInv(Next(q, actions[0]).value, actions[1..]);
    }
  }

  /******* The queue drains *******/

  predicate Live(e: Event) {
    e.status == Pending || e.status == Retry
  }

  function AttemptsLeft(e: Event): int {
    if Live(e) then Max(0, e.maxRetries + 1 - e.attempts) else 0
  }

  function WorkLeft(rows: seq<Event>): int {
    if rows == [] then 0 else WorkLeft(rows[..|rows| - 1]) + AttemptsLeft(rows[|rows| - 1])
  }

  lemma {:induction false} WorkLeftUpdate(rows: seq<Event>, i: nat, e: Event)
    requires i < |rows|
    ensures WorkLeft(rows[i := e]) == WorkLeft(rows) - AttemptsLeft(rows[i]) + AttemptsLeft(e)
  {
    var n := |rows| - 1;
    if i == n {
      assert rows[i := e][..n] == rows[..n];
    } else {
      assert rows[i := e][..n] == rows[..n][i := e];
      WorkLeftUpdate(rows[..n], i, e);
    }
  }

  lemma {:induction false} WorkLeftNonNegative(rows: seq<Event>)
    ensures WorkLeft(rows) >= 0
    ensures forall i :: 0 <= i < |rows| ==> AttemptsLeft(rows[i]) <= WorkLeft(rows)
  {
    if rows != [] {
      WorkLeftNonNegative(rows[..|rows| - 1]);
    }
  }

  // What every row keeps, whatever is replayed or reset.
  predicate Sound(rows: seq<Event>) {
    forall i :: 0 <= i < |rows| ==> SoundRow(rows[i])
  }

  predicate SoundRow(e: Event) {
    e.attempts <= e.maxRetries + 1
    && (e.status == Pending ==> e.attempts == 0)
    && (e.status == Retry ==> e.attempts <= e.maxRetries && e.nextRetryAt.Some?)
    && (e.status == Processed ==> e.attempts > 0)
  }

  lemma StepKeepsSound(q: Queue, a: Action)
    requires Sound(q.rows) && Next(q, a).Some?
    ensures Sound(Next(q, a).value.rows)
  {
    match a {
      case Cleanup(days) => SoundWithoutOld(q.rows, q.now, days);
      case Work(i, ok) => assert SoundRow(q.rows[i]);
      case Replay(id) =>
        forall i | 0 <= i < |q.rows| ensures SoundRow(ReplayRow(q.rows[i], id)) {
          assert SoundRow(q.rows[i]);
        }
      case ResetStuck(timeout) =>
        forall i | 0 <= i < |q.rows| ensures SoundRow(ResetRow(q.rows[i], q.now, timeout)) {
          assert SoundRow(q.rows[i]);
        }
      case _ =>
    }
  }

  lemma {:induction false} SoundWithoutOld(rows: seq<Event>, now: int, days: int)
    requires Sound(rows)
    ensures Sound(WithoutOld(rows, now, days))
  {
    if rows != [] {
      SoundWithoutOld(rows[..|rows| - 1], now, days);
    }
  }

  // Every step that works on an event uses up some of the work that is left.
  lemma WorkUsesUp(q: Queue, i: nat, ok: bool)
    requires Sound(q.rows) && IsNext(q.rows, q.now, i)
    ensures WorkLeft(Process(q, i, ok).rows) < WorkLeft(q.rows)
    ensures WorkLeft(Abandon(q, i).rows) < WorkLeft(q.rows)
  {
    assert SoundRow(q.rows[i]);
    WorkLeftUpdate(q.rows, i, Finish(q.rows[i], ok, q.now));
    WorkLeftUpdate(q.rows, i, Start(q.rows[i], q.now));
  }

  function StepsOfWork(actions: seq<Action>): nat {
    if actions == [] then 0
    else StepsOfWork(actions[1..]) + if actions[0].Work? || actions[0].Crash? then 1 else 0
  }

  // Only working, crashing and time passing.
  predicate WorkOnly(actions: seq<Action>) {
    forall i :: 0 <= i < |actions| ==> actions[i].Work? || actions[i].Crash? || actions[i].Wait?
  }

  lemma {:induction false} WorkIsBounded(q: Queue, actions: seq<Action>)
    requires Sound(q.rows) && WorkOnly(actions) && Run(q, actions).Some?
    ensures StepsOfWork(actions) + WorkLeft(Run(q, actions).value.rows) <= WorkLeft(q.rows)
    decreases |actions|
  {
    if actions != [] {
      StepKeepsSound(q, actions[0]);
      if actions[0].Work? {
        WorkUsesUp(q, actions[0].i, actions[0].ok);
      } else if actions[0].Crash? {
        WorkUsesUp(q, actions[0].i, false);
      }
      WorkIsBounded(Next(q, actions[0]).value, actions[1..]);
    }
  }

  /******* The order of the work *******/

  predicate ComesBefore(a: Event, b: Event) {
    a.priority < b.priority || (a.priority == b.priority && a.createdAt < b.createdAt)
  }

  // Working, crashing, time passing and new events.
  predicate NothingGivenBack(actions: seq<Action>) {
    forall i :: 0 <= i < |actions| ==> actions[i].Work? || actions[i].Crash? || actions[i].Wait? || actions[i].Enqueue?
  }

  predicate Takes(a: Action, i: nat) {
    (a.Work? || a.Crash?) && a.i == i
  }

  // An event that is not worked on keeps its row, and no event changes its place in the order.
  lemma StepKeepsPlaces(q: Queue, a: Action)
    requires Next(q, a).Some? && NothingGivenBack([a])
    ensures
      var next := Next(q, a).value;
      |next.rows| >= |q.rows|
      && forall i :: 0 <= i < |q.rows| ==>
           (Takes(a, i) || next.rows[i] == q.rows[i])
           && next.rows[i].priority == q.rows[i].priority && next.rows[i].createdAt == q.rows[i].createdAt
  {
    assert [a][0] == a;
  }

  // An event that is pending from the start is first worked on before every event that comes
  // after it, whatever fails and crashes, and however time passes.
  lemma {:induction false} WorkedInOrder(q: Queue, actions: seq<Action>, a: nat, b: nat, k: nat) returns (j: nat)
    requires Run(q, actions).Some? && NothingGivenBack(actions) && k < |actions| && Takes(actions[k], b)
    requires a < |q.rows| && b < |q.rows| && q.rows[a].status == Pending && ComesBefore(q.rows[a], q.rows[b])
    ensures j < k && Takes(actions[j], a)
    decreases |actions|
  {
    var first := actions[0];
    if Takes(first, a) {
      j := 0;
    } else {
      if k == 0 {
        NextIsMostUrgent(q.rows, q.now, b);
      }
      assert NothingGivenBack([first]);
      StepKeepsPlaces(q, first);
      j := WorkedInOrder(Next(q, first).value, actions[1..], a, b, k - 1);
      j := j + 1;
    }
  }

  predicate Settled(rows: seq<Event>) {
    forall i :: 0 <= i < |rows| ==> rows[i].status == Processed || rows[i].status == Failed
  }

  predicate NoneAbandoned(rows: seq<Event>) {
    forall i :: 0 <= i < |rows| ==> rows[i].status != Processing
  }

  lemma {:induction false} FirstEligible(rows: seq<Event>, now: int) returns (i: nat)
    requires exists j :: 0 <= j < |rows| && Eligible(rows[j], now)
    ensures IsNext(rows, now, i)
  {
    var n := |rows| - 1;
    if exists j :: 0 <= j < n && Eligible(rows[j], now) {
      var k :| 0 <= k < n && Eligible(rows[k], now);
      assert Eligible(rows[..n][k], now);
      i := FirstEligible(rows[..n], now);
      assert forall j :: 0 <= j < n ==> rows[..n][j] == rows[j];
      if Eligible(rows[n], now) && !NoLater(rows[i], rows[n]) {
        i := n;
      }
    } else {
      i := n;
    }
  }

  // However the handler behaves, and whatever was replayed or reset before, working and waiting settles every event as processed or failed.
  lemma {:induction false} QueueDrains(q: Queue, handler: Event -> bool) returns (actions: seq<Action>)
    requires Sound(q.rows) && NoneAbandoned(q.rows)
    ensures Run(q, actions).Some? && Settled(Run(q, actions).value.rows)
    ensures forall k :: 0 <= k < |actions| ==> actions[k].Work? || actions[k].Wait?
    decreases WorkLeft(q.rows)
  {
    if Settled(q.rows) {
      return [];
    }
    var ms, i := NextChance(q);
    var waited := q.(now := q.now + ms);
    var ok := handler(waited.rows[i]);
    RoundUsesUp(q, ms, i, ok);
    WorkLeftNonNegative(q.rows);
    var rest := QueueDrains(Process(waited, i, ok), handler);
    RunStep(waited, Work(i, ok), Process(waited, i, ok), rest);
    RunStep(q, Wait(ms), waited, [Work(i, ok)] + rest);
    actions := [Wait(ms)] + ([Work(i, ok)] + rest);
  }

  lemma RoundUsesUp(q: Queue, ms: nat, i: nat, ok: bool)
    requires Sound(q.rows) && NoneAbandoned(q.rows) && IsNext(q.rows, q.now + ms, i)
    ensures
      var next := Process(q.(now := q.now + ms), i, ok);
      Sound(next.rows) && NoneAbandoned(next.rows) && WorkLeft(next.rows) < WorkLeft(q.rows)
  {
    StepKeepsSound(q.(now := q.now + ms), Work(i, ok));
    WorkUsesUp(q.(now := q.now + ms), i, ok);
  }

  // As long as an event is unsettled, waiting long enough makes one eligible.
  lemma NextChance(q: Queue) returns (ms: nat, i: nat)
    requires Sound(q.rows) && NoneAbandoned(q.rows) && !Settled(q.rows)
    ensures IsNext(q.rows, q.now + ms, i)
  {
    var j :| 0 <= j < |q.rows| && Live(q.rows[j]);
    var e := q.rows[j];
    assert SoundRow(e);
    if e.status == Retry {
      ms := Max(0, e.nextRetryAt.value - q.now);
      assert Eligible(e, q.now + ms);
    } else {
      ms := 0;
      assert Live(e);
      assert Eligible(e, q.now);
    }
    i := FirstEligible(q.rows, q.now + ms);
  }

  lemma {:induction false} WorkAbandonsNone(q: Queue, actions: seq<Action>)
    requires Sound(q.rows) && NoneAbandoned(q.rows) && Run(q, actions).Some?
    requires forall k :: 0 <= k < |actions| ==> actions[k].Work? || actions[k].Wait?
    ensures Sound(Run(q, actions).value.rows) && NoneAbandoned(Run(q, actions).value.rows)
    decreases |actions|
  {
    if actions != [] {
      StepKeepsSound(q, actions[0]);
      WorkAbandonsNone(Next(q, actions[0]).value, actions[1..]);
    }
  }

  // Every schedule of working and waiting gets there: however far it has come, it has worked no
  // more often than the attempts that were left, and unless every event is settled it can work
  // again after some time.
  lemma EveryScheduleSettles(q: Queue, actions: seq<Action>) returns (ms: nat, i: nat)
    requires Sound(q.rows) && NoneAbandoned(q.rows) && Run(q, actions).Some?
    requires forall k :: 0 <= k < |actions| ==> actions[k].Work? || actions[k].Wait?
    ensures
      var after := Run(q, actions).value;
      StepsOfWork(actions) <= WorkLeft(q.rows) && (Settled(after.rows) || IsNext(after.rows, after.now + ms, i))
  {
    WorkAbandonsNone(q, actions);
    WorkIsBounded(q, actions);
    var after := Run(q, actions).value;
    WorkLeftNonNegative(after.rows);
    ms, i := 0, 0;
    if !Settled(after.rows) {
      ms, i := NextChance(after);
    }
  }

  // With resets there is no bound: crashing and resetting over and over starts the handler for
  // the same event as often as one likes.
  lemma {:induction false} ResetsRemoveTheBound(e: Event, now: int, n: nat) returns (actions: seq<Action>)
    requires e.status == Pending && e.attempts == 0
    ensures
      var after := Run(Queue([e], now, []), actions);
      after.Some? && HistoryOf(after.value.attempts, e.id).count == n
      && |after.value.rows| == 1 && after.value.rows[0].id == e.id
      && after.value.rows[0].status == Pending && after.value.rows[0].attempts == 0
  {
    if n == 0 {
      return [];
    }
    var before := ResetsRemoveTheBound(e, now, n - 1);
    var q := Run(Queue([e], now, []), before).value;
    var crashed := Abandon(q, 0);
    var waited := crashed.(now := crashed.now + 31 * MINUTE);
    var reset := waited.(rows := Reset(waited.rows, waited.now, 30));
    var more := [Crash(0), Wait(31 * MINUTE), ResetStuck(30)];
    assert more == [Crash(0)] + ([Wait(31 * MINUTE)] + ([ResetStuck(30)] + []));
    RunStep(waited, ResetStuck(30), reset, []);
    RunStep(crashed, Wait(31 * MINUTE), waited, [ResetStuck(30)] + []);
    RunStep(q, Crash(0), crashed, [Wait(31 * MINUTE)] + ([ResetStuck(30)] + []));
    HistoryAppend(q.attempts, Attempt(q.rows[0].id, q.now, None), e.id);
    RunConcat(Queue([e], now, []), before, more);
    actions := before + more;
  }

  lemma {:induction false} RunConcat(q: Queue, a: seq<Action>, b: seq<Action>)
    requires Run(q, a).Some?
    ensures Run(q, a + b) == Run(Run(q, a).value, b)
    decreases |a|
  {
    if a == [] {
      assert a + b == b;
    } else {
      RunConcat(Next(q, a[0]).value, a[1..], b);
      assert (a + b)[1..] == a[1..] + b;
    }
  }

  /******* The bound with restarts *******/

  // The action gives the event its attempts back.
  predicate GivesBack(q: Queue, a: Action, id: int) {
    exists i :: 0 <= i < |q.rows| && q.rows[i].id == id && RestartsRow(q.rows[i], q.now, a)
  }

  predicate RestartsRow(e: Event, now: int, a: Action) {
    (a.Replay? && a.id == e.id && e.status == Failed) || (a.ResetStuck? && Stuck(e, now, a.timeout))
  }

  // How often that happens in a run.
  function Restarts(q: Queue, actions: seq<Action>, id: int): nat
    requires Run(q, actions).Some?
    decreases |actions|
  {
    if actions == [] then 0
    else (if GivesBack(q, actions[0], id) then 1 else 0) + Restarts(Next(q, actions[0]).value, actions[1..], id)
  }

  function Times(n: nat, starts: nat): nat {
    if n == 0 then 0 else Times(n - 1, starts) + starts
  }

  lemma {:induction false} TimesIsProduct(n: nat, starts: nat)
    ensures Times(n, starts) == n * starts
  {
    if n > 0 {
      TimesIsProduct(n - 1, starts);
    }
  }

  function Starts(q: Queue, id: int): nat {
    HistoryOf(q.attempts, id).count
  }

  predicate Present(rows: seq<Event>, id: int) {
    exists i :: 0 <= i < |rows| && rows[i].id == id
  }

  predicate RowBudgeted(e: Event, starts: nat, maxRetries: nat, n: nat) {
    e.maxRetries == maxRetries && e.attempts <= starts <= Times(n, maxRetries + 1) + e.attempts
  }

  // The starts of an event after n restarts, while it has a row and after it was cleaned up.
  predicate Budgeted(q: Queue, id: int, maxRetries: nat, n: nat) {
    (forall i :: 0 <= i < |q.rows| && q.rows[i].id == id ==> RowBudgeted(q.rows[i], Starts(q, id), maxRetries, n))
    && (!Present(q.rows, id) ==> 0 < Starts(q, id) <= Times(n + 1, maxRetries + 1))
  }

  predicate Orderly(q: Queue) {
    Sound(q.rows) && DistinctIds(q.rows)
  }

  lemma StepKeepsOrderly(q: Queue, a: Action)
    requires Orderly(q) && Next(q, a).Some?
    ensures Orderly(Next(q, a).value)
  {
    StepKeepsSound(q, a);
    if a.Cleanup? {
      WithoutOldKeeps(q.rows, q.now, a.days);
    }
  }

  lemma WorkKeepsBudget(q: Queue, i: nat, e: Event, a: Attempt, id: int, maxRetries: nat, n: nat)
    requires Orderly(q) && Budgeted(q, id, maxRetries, n) && i < |q.rows|
    requires a.id == e.id == q.rows[i].id && e.maxRetries == q.rows[i].maxRetries && e.attempts == q.rows[i].attempts + 1
    ensures Budgeted(q.(rows := q.rows[i := e], attempts := q.attempts + [a]), id, maxRetries, n)
  {
    var next := q.(rows := q.rows[i := e], attempts := q.attempts + [a]);
    HistoryAppend(q.attempts, a, id);
    assert forall k :: 0 <= k < |q.rows| ==> next.rows[k].id == q.rows[k].id;
    if a.id == id {
      assert next.rows[i].id == id;
      forall k | 0 <= k < |q.rows| && q.rows[k].id == id ensures k == i {
        OnlyRowOf(q.rows, k, i);
      }
      assert RowBudgeted(q.rows[i], Starts(q, id), maxRetries, n);
    } else {
      assert Starts(next, id) == Starts(q, id);
      assert forall k :: 0 <= k < |q.rows| && q.rows[k].id == id ==> next.rows[k] == q.rows[k];
      assert Present(next.rows, id) <==> Present(q.rows, id);
    }
  }

  lemma OnlyRowOf(rows: seq<Event>, i: nat, k: nat)
    requires DistinctIds(rows) && i < |rows| && k < |rows| && rows[i].id == rows[k].id
    ensures i == k
  {
  }

  // What a replay or a reset makes of row k.
  lemma RestartedRow(q: Queue, a: Action, k: nat)
    requires k < |q.rows| && (a.Replay? || a.ResetStuck?)
    ensures
      var next := Next(q, a).value;
      |next.rows| == |q.rows| && next.attempts == q.attempts
      && next.rows[k].id == q.rows[k].id && next.rows[k].maxRetries == q.rows[k].maxRetries
      && next.rows[k].attempts == if RestartsRow(q.rows[k], q.now, a) then 0 else q.rows[k].attempts
  {
  }

  // Rows change where they stand, and only restarted ones lose attempts.
  lemma RestartKeepsBudget(q: Queue, a: Action, id: int, maxRetries: nat, n: nat)
    requires Orderly(q) && Budgeted(q, id, maxRetries, n) && (a.Replay? || a.ResetStuck?)
    ensures Budgeted(Next(q, a).value, id, maxRetries, if GivesBack(q, a, id) then n + 1 else n)
  {
    var next := Next(q, a).value;
    if k :| 0 <= k < |q.rows| && q.rows[k].id == id {
      RestartedRow(q, a, k);
      assert SoundRow(q.rows[k]) && next.rows[k].id == id;
      forall j | 0 <= j < |q.rows| && (q.rows[j].id == id || next.rows[j].id == id) ensures j == k {
        RestartedRow(q, a, j);
        OnlyRowOf(q.rows, j, k);
      }
      assert GivesBack(q, a, id) <==> RestartsRow(q.rows[k], q.now, a);
      assert RowBudgeted(q.rows[k], Starts(q, id), maxRetries, n);
    } else {
      forall j | 0 <= j < |next.rows| ensures next.rows[j].id != id {
        RestartedRow(q, a, j);
      }
    }
  }

  lemma CleanupKeepsBudget(q: Queue, days: int, id: int, maxRetries: nat, n: nat)
    requires Orderly(q) && Budgeted(q, id, maxRetries, n)
    ensures Budgeted(Next(q, Cleanup(days)).value, id, maxRetries, n)
  {
    var rows := WithoutOld(q.rows, q.now, days);
    WithoutOldKeeps(q.rows, q.now, days);
    forall k | 0 <= k < |rows| ensures rows[k] in q.rows {
    }
    if Present(q.rows, id) && !Present(rows, id) {
      var i :| 0 <= i < |q.rows| && q.rows[i].id == id;
      WithoutOldKeepsOthers(q.rows, q.now, days, i);
      assert Old(q.rows[i], q.now, days) && SoundRow(q.rows[i]);
    }
  }

  lemma {:induction false} WithoutOldKeepsOthers(rows: seq<Event>, now: int, days: int, i: nat)
    requires i < |rows|
    ensures !Old(rows[i], now, days) ==> rows[i] in WithoutOld(rows, now, days)
  {
    if i < |rows| - 1 {
      WithoutOldKeepsOthers(rows[..|rows| - 1], now, days, i);
    }
  }

  lemma StepKeepsBudget(q: Queue, a: Action, id: int, maxRetries: nat, n: nat)
    requires Orderly(q) && Budgeted(q, id, maxRetries, n) && Next(q, a).Some?
    ensures Budgeted(Next(q, a).value, id, maxRetries, if GivesBack(q, a, id) then n + 1 else n)
  {
    match a {
      case Work(i, ok) =>
        var delay := if ok then None else DelayAfter(q.rows[i]);
        WorkKeepsBudget(q, i, Finish(q.rows[i], ok, q.now), Attempt(q.rows[i].id, q.now, delay), id, maxRetries, n);
      case Crash(i) =>
        WorkKeepsBudget(q, i, Start(q.rows[i], q.now), Attempt(q.rows[i].id, q.now, None), id, maxRetries, n);
      case Wait(_) =>
      case Enqueue(e) =>
        if e.id == id {
          UnusedHasNoHistory(q.attempts, id);
        }
        assert forall k :: 0 <= k < |q.rows| ==> (q.rows + [e])[k] == q.rows[k];
      case Replay(_) => RestartKeepsBudget(q, a, id, maxRetries, n);
      case ResetStuck(_) => RestartKeepsBudget(q, a, id, maxRetries, n);
      case Cleanup(days) => CleanupKeepsBudget(q, days, id, maxRetries, n);
    }
  }

  lemma {:induction false} RunKeepsBudget(q: Queue, actions: seq<Action>, id: int, maxRetries: nat, n: nat, total: nat)
    requires Orderly(q) && Budgeted(q, id, maxRetries, n) && Run(q, actions).Some?
    requires total == n + Restarts(q, actions, id)
    ensures Orderly(Run(q, actions).value) && Budgeted(Run(q, actions).value, id, maxRetries, total)
    decreases |actions|
  {
    if actions != [] {
      var next := Next(q, actions[0]).value;
      StepKeepsOrderly(q, actions[0]);
      StepKeepsBudget(q, actions[0], id, maxRetries, n);
      if GivesBack(q, actions[0], id) {
        RunKeepsBudget(next, actions[1..], id, maxRetries, n + 1, total);
      } else {
        RunKeepsBudget(next, actions[1..], id, maxRetries, n, total);
      }
    }
  }

  lemma BudgetAtStart(q: Queue, i: nat)
    requires Orderly(q) && i < |q.rows| && Starts(q, q.rows[i].id) == q.rows[i].attempts
    ensures Budgeted(q, q.rows[i].id, q.rows[i].maxRetries, 0)
  {
    forall k | 0 <= k < |q.rows| && q.rows[k].id == q.rows[i].id ensures k == i {
      OnlyRowOf(q.rows, k, i);
    }
  }

  lemma BudgetAtEnd(q: Queue, id: int, maxRetries: nat, n: nat)
    requires Orderly(q) && Budgeted(q, id, maxRetries, n)
    ensures Starts(q, id) <= Times(n + 1, maxRetries + 1)
  {
    if k :| 0 <= k < |q.rows| && q.rows[k].id == id {
      assert SoundRow(q.rows[k]) && RowBudgeted(q.rows[k], Starts(q, id), maxRetries, n);
    } else {
      assert !Present(q.rows, id);
    }
  }

  lemma StartsWithinBudget(q: Queue, actions: seq<Action>, i: nat)
    requires Orderly(q) && i < |q.rows| && Starts(q, q.rows[i].id) == q.rows[i].attempts && Run(q, actions).Some?
    ensures
      var e := q.rows[i];
      Starts(Run(q, actions).value, e.id) <= Times(Restarts(q, actions, e.id) + 1, e.maxRetries + 1)
  {
    var e := q.rows[i];
    var total := Restarts(q, actions, e.id);
    BudgetAtStart(q, i);
    RunKeepsBudget(q, actions, e.id, e.maxRetries, 0, total);
    BudgetAtEnd(Run(q, actions).value, e.id, e.maxRetries, total);
  }

  // In every run, with replays, resets, crashes and cleanups, the handler is started for an
  // event at most max_retries + 1 times for each time the event got its attempts, whether or not
  // its row is still there in the end.
  lemma StartsAreBounded(q: Queue, actions: seq<Action>, i: nat)
    requires Orderly(q) && i < |q.rows| && Starts(q, q.rows[i].id) == q.rows[i].attempts && Run(q, actions).Some?
    ensures
      var e := q.rows[i];
      Starts(Run(q, actions).value, e.id) <= (Restarts(q, actions, e.id) + 1) * (e.maxRetries + 1)
  {
    var e := q.rows[i];
    StartsWithinBudget(q, actions, i);
    TimesIsProduct(Restarts(q, actions, e.id) + 1, e.maxRetries + 1);
  }

  // A calm run gives nothing back.
  lemma {:induction false} CalmGivesNothingBack(q: Queue, actions: seq<Action>, id: int)
    requires Calm(actions) && Run(q, actions).Some?
    ensures Restarts(q, actions, id) == 0
    decreases |actions|
  {
    if actions != [] {
      CalmGivesNothingBack(Next(q, actions[0]).value, actions[1..], id);
    }
  }

  lemma AccountedIsSound(q: Queue, i: nat)
    requires QueueInv(q) && i < |q.rows|
    ensures Orderly(q) && Starts(q, q.rows[i].id) == q.rows[i].attempts
  {
    forall k | 0 <= k < |q.rows| ensures SoundRow(q.rows[k]) {
      AccountedRowIsSound(q.rows[k], HistoryOf(q.attempts, q.rows[k].id), q.now);
    }
  }

  lemma AccountedRowIsSound(e: Event, h: History, now: int)
    requires Accounted(e, h, now)
    ensures SoundRow(e)
  {
  }

  // An event that ended as failed used all of its attempts, was put off by delays that double
  // from one minute and add up to 2^max_retries - 1 minutes, and took at least that long.
  predicate FailedInFull(e: Event, h: History) {
    h.count == e.maxRetries + 1 && h.delays == Backoff(e.maxRetries)
    && Sum(h.delays) == (Pow2(e.maxRetries) - 1) * 60_000
    && h.last - h.first >= (Pow2(e.maxRetries) - 1) * 60_000
  }

  // Without replay or reset, and whatever fails or crashes, the handler is started at most
  // max_retries + 1 times for an event, whether its row is there at the end or was cleaned up.
  lemma AttemptsAreBounded(q: Queue, actions: seq<Action>)
    requires QueueInv(q) && Calm(actions) && Run(q, actions).Some?
    ensures
      var after := Run(q, actions).value;
      (forall i :: 0 <= i < |q.rows| ==> Starts(after, q.rows[i].id) <= q.rows[i].maxRetries + 1)
      && forall k :: 0 <= k < |after.rows| ==>
           Starts(after, after.rows[k].id) <= after.rows[k].maxRetries + 1
           && (after.rows[k].status == Failed ==> FailedInFull(after.rows[k], HistoryOf(after.attempts, after.rows[k].id)))
  {
    var after := Run(q, actions).value;
    forall i | 0 <= i < |q.rows| ensures Starts(after, q.rows[i].id) <= q.rows[i].maxRetries + 1 {
      CalmStarts(q, actions, i);
    }
    RunKeepsInv(q, actions);
    forall k | 0 <= k < |after.rows|
      ensures Starts(after, after.rows[k].id) <= after.rows[k].maxRetries + 1
      ensures after.rows[k].status == Failed ==> FailedInFull(after.rows[k], HistoryOf(after.attempts, after.rows[k].id))
    {
      AccountedInFull(after.rows[k], HistoryOf(after.attempts, after.rows[k].id), after.now);
    }
  }

  lemma CalmStarts(q: Queue, actions: seq<Action>, i: nat)
    requires QueueInv(q) && Calm(actions) && Run(q, actions).Some? && i < |q.rows|
    ensures Starts(Run(q, actions).value, q.rows[i].id) <= q.rows[i].maxRetries + 1
  {
    AccountedIsSound(q, i);
    CalmGivesNothingBack(q, actions, q.rows[i].id);
    StartsWithinBudget(q, actions, i);
    assert Times(1, q.rows[i].maxRetries + 1) == q.rows[i].maxRetries + 1;
  }

  lemma AccountedInFull(e: Event, h: History, now: int)
    requires Accounted(e, h, now)
    ensures h.count <= e.maxRetries + 1 && (e.status == Failed ==> FailedInFull(e, h))
  {
    BackoffSum(e.maxRetries);
  }

  /******* The bound is reached *******/

  lemma {:induction false} RestartsConcat(q: Queue, a: seq<Action>, b: seq<Action>, id: int)
    requires Run(q, a).Some? && Run(Run(q, a).value, b).Some?
    ensures Run(q, a + b) == Run(Run(q, a).value, b)
    ensures Restarts(q, a + b, id) == Restarts(q, a, id) + Restarts(Run(q, a).value, b, id)
    decreases |a|
  {
    RunConcat(q, a, b);
    if a == [] {
      assert a + b == b;
    } else {
      assert (a + b)[1..] == a[1..] + b;
      RestartsConcat(Next(q, a[0]).value, a[1..], b, id);
    }
  }

  predicate Alone(q: Queue, id: int, maxRetries: nat) {
    |q.rows| == 1 && q.rows[0].id == id && q.rows[0].maxRetries == maxRetries && SoundRow(q.rows[0])
  }

  // The next attempt of an event alone in the queue, waited for and failed.
  lemma FailsOnce(q: Queue, id: int, maxRetries: nat) returns (ms: nat, next: Queue)
    requires Alone(q, id, maxRetries) && Live(q.rows[0])
    ensures Run(q, [Wait(ms), Work(0, false)]) == Some(next) && Alone(next, id, maxRetries)
    ensures next.rows[0].attempts == q.rows[0].attempts + 1 && Starts(next, id) == Starts(q, id) + 1
    ensures if q.rows[0].attempts < maxRetries then Live(next.rows[0]) else next.rows[0].status == Failed
  {
    var e := q.rows[0];
    ms := if e.status == Retry then Max(0, e.nextRetryAt.value - q.now) else 0;
    var waited := q.(now := q.now + ms);
    next := Process(waited, 0, false);
    HistoryAppend(waited.attempts, Attempt(id, waited.now, DelayAfter(e)), id);
    assert [Wait(ms), Work(0, false)] == [Wait(ms)] + ([Work(0, false)] + []);
    RunStep(waited, Work(0, false), next, []);
    RunStep(q, Wait(ms), waited, [Work(0, false)] + []);
  }

  // A handler that always fails uses up all attempts.
  lemma {:induction false} FailsOut(q: Queue, id: int, maxRetries: nat) returns (actions: seq<Action>)
    requires Alone(q, id, maxRetries) && Live(q.rows[0])
    ensures Calm(actions) && Run(q, actions).Some?
    ensures
      var after := Run(q, actions).value;
      Alone(after, id, maxRetries) && after.rows[0].status == Failed
      && Starts(after, id) == Starts(q, id) + maxRetries + 1 - q.rows[0].attempts
    decreases maxRetries + 1 - q.rows[0].attempts
  {
    var ms, next := FailsOnce(q, id, maxRetries);
    actions := [Wait(ms), Work(0, false)];
    if q.rows[0].attempts < maxRetries {
      var rest := FailsOut(next, id, maxRetries);
      RunConcat(q, actions, rest);
      actions := actions + rest;
    }
  }

  // For every number of restarts some run starts the handler as often as the bound allows.
  lemma {:induction false} StartsReachTheBound(e: Event, now: int, n: nat) returns (actions: seq<Action>)
    requires e.status == Pending && e.attempts == 0
    ensures Run(Queue([e], now, []), actions).Some?
    ensures
      var q := Queue([e], now, []);
      var after := Run(q, actions).value;
      Restarts(q, actions, e.id) == n && Starts(after, e.id) == Times(n + 1, e.maxRetries + 1)
      && Alone(after, e.id, e.maxRetries) && after.rows[0].status == Failed
  {
    var q := Queue([e], now, []);
    if n == 0 {
      actions := FailsOut(q, e.id, e.maxRetries);
      CalmGivesNothingBack(q, actions, e.id);
    } else {
      var before := StartsReachTheBound(e, now, n - 1);
      var failed := Run(q, before).value;
      var replayed := failed.(rows := ReplayOne(failed.rows, e.id));
      var rest := FailsOut(replayed, e.id, e.maxRetries);
      RunStep(failed, Replay(e.id), replayed, rest);
      CalmGivesNothingBack(replayed, rest, e.id);
      var more := [Replay(e.id)] + rest;
      assert more[1..] == rest && GivesBack(failed, Replay(e.id), e.id);
      RestartsConcat(q, before, more, e.id);
      actions := before + more;
    }
  }

  /******* The service *******/

  // What remains are the rows at the places in `kept`, which are those of the events that are
  // not old, in ascending order.
  predicate Survives(rows: seq<Event>, rest: seq<Event>, kept: seq<nat>, now: int, days: int) {
    |rest| == |kept|
    && (forall k :: 0 <= k < |kept| ==> kept[k] < |rows| && rest[k] == rows[kept[k]])
    && (forall k, l :: 0 <= k < l < |kept| ==> kept[k] < kept[l])
    && forall i :: 0 <= i < |rows| ==> (i in kept <==> !Old(rows[i], now, days))
  }

  lemma SurvivesOneMore(rows: seq<Event>, rest: seq<Event>, front: seq<nat>, now: int, days: int)
    requires rows != [] && Survives(rows[..|rows| - 1], rest, front, now, days)
    ensures
      var n := |rows| - 1;
      if Old(rows[n], now, days) then Survives(rows, rest, front, now, days)
      else Survives(rows, rest + [rows[n]], front + [n], now, days)
  {
    var n := |rows| - 1;
    forall i | 0 <= i < n ensures rows[..n][i] == rows[i] {
    }
    forall k | 0 <= k < |front| ensures front[k] < n {
    }
    if !Old(rows[n], now, days) {
      forall i | 0 <= i < |rows| ensures i in front + [n] <==> !Old(rows[i], now, days) {
        assert i in front + [n] <==> i in front || i == n;
      }
    } else {
      assert n !in front;
    }
  }

  lemma {:induction false} WithoutOldSurvives(rows: seq<Event>, now: int, days: int) returns (kept: seq<nat>)
    ensures Survives(rows, WithoutOld(rows, now, days), kept, now, days)
  {
    kept := [];
    if rows != [] {
      var n := |rows| - 1;
      kept := WithoutOldSurvives(rows[..n], now, days);
      SurvivesOneMore(rows, WithoutOld(rows[..n], now, days), kept, now, days);
      kept := if Old(rows[n], now, days) then kept else kept + [n];
    }
  }

  lemma SurvivorsAre(rows: seq<Event>, rest: seq<Event>, kept: seq<nat>, now: int, days: int)
    requires Survives(rows, rest, kept, now, days)
    ensures forall e :: e in rest <==>
              e in rows && !(e.status == Processed && e.processedAt.Some? && e.processedAt.value < now - days * 86_400_000)
  {
    forall e ensures e in rest <==> e in rows && !Old(e, now, days) {
      if e in rest {
        var k :| 0 <= k < |rest| && rest[k] == e;
        assert kept[k] in kept;
      }
      if e in rows && !Old(e, now, days) {
        var i :| 0 <= i < |rows| && rows[i] == e;
        var k :| 0 <= k < |kept| && kept[k] == i;
        assert rest[k] == e;
      }
    }
  }

  function OldPlaces(rows: seq<Event>, now: int, days: int): set<int> {
    set i | 0 <= i < |rows| && Old(rows[i], now, days)
  }

  lemma {:induction false} OldPlacesCount(rows: seq<Event>, now: int, days: int)
    ensures |OldPlaces(rows, now, days)| + |WithoutOld(rows, now, days)| == |rows|
  {
    if rows != [] {
      var n := |rows| - 1;
      OldPlacesCount(rows[..n], now, days);
      assert OldPlaces(rows, now, days) ==
             OldPlaces(rows[..n], now, days) + if Old(rows[n], now, days) then {n} else {};
    }
  }

  function CountProcessed(rows: seq<Event>): nat {
    if rows == [] then 0
    else CountProcessed(rows[..|rows| - 1]) + if rows[|rows| - 1].status == Processed then 1 else 0
  }

  lemma {:induction false} CountProcessedUpdate(rows: seq<Event>, i: nat, e: Event)
    requires i < |rows| && rows[i].status != Processed
    ensures CountProcessed(rows[i := e]) == CountProcessed(rows) + if e.status == Processed then 1 else 0
  {
    var n := |rows| - 1;
    if i == n {
      assert rows[i := e][..n] == rows[..n];
    } else {
      assert rows[i := e][..n] == rows[..n][i := e];
      CountProcessedUpdate(rows[..n], i, e);
    }
  }

  lemma ProcessedOne(q: Queue, i: nat, ok: bool)
    requires Sound(q.rows) && IsNext(q.rows, q.now, i)
    ensures
      var next := Process(q, i, ok);
      Sound(next.rows) && (QueueInv(q) ==> QueueInv(next))
      && |next.attempts| == |q.attempts| + 1 && WorkLeft(next.rows) < WorkLeft(q.rows)
      && CountProcessed(next.rows) == CountProcessed(q.rows) + if ok then 1 else 0
  {
    StepKeepsSound(q, Work(i, ok));
    WorkUsesUp(q, i, ok);
    CountProcessedUpdate(q.rows, i, Finish(q.rows[i], ok, q.now));
    if QueueInv(q) {
      WorkKeepsInv(q, i, ok, false);
    }
  }

  datatype ProcessResult = Nothing | Done(success: bool, id: int)

  class AnalyticsPipelineService {
    var rows: seq<Event>
    var now: int
    ghost var attempts: seq<Attempt>

    constructor (initial: seq<Event>, time: int)
      ensures rows == initial && now == time && attempts == []
    {
      rows, now, attempts := initial, time, [];
    }

    ghost function State(): Queue
      reads this
    {
      Queue(rows, now, attempts)
    }

    // SELECT .. ORDER BY priority ASC, created_at ASC LIMIT 1 FOR UPDATE SKIP LOCKED
    method SelectNext() returns (found: Option<nat>)
      ensures found.None? <==> Idle(State())
      ensures found.Some? ==> IsNext(rows, now, found.value) && MostUrgent(rows, now, found.value)
    {
      found := None;
      for i := 0 to |rows|
        invariant found.None? <==> forall j :: 0 <= j < i ==> !Eligible(rows[j], now)
        invariant found.Some? ==> IsNext(rows[..i], now, found.value)
      {
        assert forall j :: 0 <= j < i ==> rows[..i][j] == rows[j] && rows[..i + 1][j] == rows[j];
        if Eligible(rows[i], now) && (found.None? || !NoLater(rows[found.value], rows[i])) {
          found := Some(i);
        }
      }
      assert rows[..|rows|] == rows;
      if found.Some? {
        NextIsMostUrgent(rows, now, found.value);
      }
    }

    method ProcessNextEvent(handler: Event -> bool) returns (r: ProcessResult)
      modifies this`rows, this`attempts
      ensures r.Nothing? <==> Idle(old(State()))
      ensures r.Nothing? ==> State() == old(State())
      ensures r.Done? ==>
                exists i :: IsNext(old(rows), now, i) && MostUrgent(old(rows), now, i)
                  && r == Done(handler(old(rows)[i]), old(rows)[i].id)
                  && State() == Process(old(State()), i, handler(old(rows)[i]))
    {
      var found := SelectNext();
      if found.None? {
        return Nothing;
      }
      var i := found.value;
      var event := rows[i];
      rows := rows[i := event.(status := Processing, startedAt := Some(now), attempts := event.attempts + 1)];
      var ok := handler(event);
      if ok {
        rows := rows[i := rows[i].(status := Processed, processedAt := Some(now))];
        attempts := attempts + [Attempt(event.id, now, None)];
      } else if event.attempts < event.maxRetries {
        var retryDelay := Pow2(event.attempts) * MINUTE;
        rows := rows[i := rows[i].(status := Retry, nextRetryAt := Some(now + retryDelay))];
        attempts := attempts + [Attempt(event.id, now, Some(retryDelay))];
      } else {
        rows := rows[i := rows[i].(status := Failed, processedAt := Some(now))];
        attempts := attempts + [Attempt(event.id, now, None)];
      }
      assert rows == old(rows)[i := Finish(event, ok, now)];
      r := Done(ok, event.id);
    }

    // Stops when the batch is full or nothing is eligible, never does more work than is left, and
    // counts as processed exactly the events that became so.
    method ProcessBatch(handler: Event -> bool, batchSize: nat) returns (processed: nat, failed: nat)
      requires Sound(rows)
      modifies this`rows, this`attempts
      ensures Sound(rows) && (QueueInv(old(State())) ==> QueueInv(State()))
      ensures processed + failed <= batchSize
      ensures processed + failed < batchSize ==> Idle(State())
      ensures |attempts| == |old(attempts)| + processed + failed
      ensures WorkLeft(rows) + processed + failed <= WorkLeft(old(rows))
      ensures CountProcessed(rows) == CountProcessed(old(rows)) + processed
    {
      processed, failed := 0, 0;
      for i := 0 to batchSize
        invariant processed + failed == i
        invariant Sound(rows) && (QueueInv(old(State())) ==> QueueInv(State()))
        invariant |attempts| == |old(attempts)| + i
        invariant WorkLeft(rows) + i <= WorkLeft(old(rows))
        invariant CountProcessed(rows) == CountProcessed(old(rows)) + processed
      {
        ghost var before := State();
        var result := ProcessNextEvent(handler);
        match result {
          case Nothing => return;
          case Done(success, _) =>
            ghost var k: nat :| IsNext(before.rows, before.now, k)
              && success == handler(before.rows[k])
              && State() == Process(before, k, handler(before.rows[k]));
            ProcessedOne(before, k, success);
            if success {
              processed := processed + 1;
            } else {
              failed := failed + 1;
            }
        }
      }
    }

    // Every id counts as replayed, whether or not it named a failed event.
    method ReplayFailedEvents(ids: seq<int>) returns (replayed: nat)
      modifies this`rows
      ensures replayed == |ids| && |rows| == |old(rows)|
      ensures forall k :: 0 <= k < |rows| ==>
                rows[k] == if old(rows)[k].id in ids && old(rows)[k].status == Failed
                           then old(rows)[k].(status := Pending, attempts := 0, nextRetryAt := None) else old(rows)[k]
    {
      replayed := 0;
      for i := 0 to |ids|
        invariant replayed == i && |rows| == |old(rows)|
        invariant forall k :: 0 <= k < |rows| ==>
                    rows[k] == if old(rows)[k].id in ids[..i] && old(rows)[k].status == Failed
                               then Restart(old(rows)[k]).(nextRetryAt := None) else old(rows)[k]
      {
        rows := ReplayOne(rows, ids[i]);
        replayed := replayed + 1;
        assert ids[..i + 1] == ids[..i] + [ids[i]];
      }
      assert ids[..|ids|] == ids;
    }

    method ResetStuckEvents(timeoutMinutes: int) returns (count: nat)
      modifies this`rows
      ensures rows == Reset(old(rows), now, timeoutMinutes)
      ensures count == |set i | 0 <= i < |old(rows)| && Stuck(old(rows)[i], now, timeoutMinutes)|
      ensures forall i :: 0 <= i < |rows| ==> !Stuck(rows[i], now, timeoutMinutes)
      ensures forall k :: 0 <= k < |rows| ==>
                var e := old(rows)[k];
                rows[k] == if e.status == Processing && e.startedAt.Some? && e.startedAt.value < now - timeoutMinutes * 60_000
                           then e.(status := Pending, attempts := 0, startedAt := None) else e
    {
      count := |set i | 0 <= i < |rows| && Stuck(rows[i], now, timeoutMinutes)|;
      rows := Reset(rows, now, timeoutMinutes);
    }

    // Exactly the events that are not old remain, in their order; the others are counted.
    method CleanupOldEvents(daysOld: int) returns (count: int)
      modifies this`rows
      ensures exists kept :: Survives(old(rows), rows, kept, now, daysOld)
      ensures count == |OldPlaces(old(rows), now, daysOld)|
      ensures rows == WithoutOld(old(rows), now, daysOld)
      ensures forall e :: e in rows <==>
                e in old(rows)
                && !(e.status == Processed && e.processedAt.Some? && e.processedAt.value < now - daysOld * 86_400_000)
    {
      var before := |rows|;
      ghost var kept := WithoutOldSurvives(rows, now, daysOld);
      OldPlacesCount(rows, now, daysOld);
      rows := WithoutOld(rows, now, daysOld);
      assert Survives(old(rows), rows, kept, now, daysOld);
      SurvivorsAre(old(rows), rows, kept, now, daysOld);
      count := before - |rows|;
    }
  }
}
