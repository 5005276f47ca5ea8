// The staff login's failure counter and lock, and the rate at which passwords can be tried
// against an account.
module LoginLockout {
  import opened Basics

  const MAX_FAILURES := 5

  // Fifteen minutes, in milliseconds.
  const LOCKOUT := 900_000

  datatype Account = Account(failedAttempts: nat, lockedUntil: Option<int>)

  // A request, with what the password check, the account's status and the MFA check say of it.
  datatype Request = Request(username: string, at: int, passwordOk: bool, active: bool, mfaEnabled: bool, mfaOk: bool)

  datatype Reply = LoggedIn | InvalidCredentials | MfaRequired

  type Staff = map<string, Account>

  predicate Locked(account: Account, now: int) {
    account.lockedUntil.Some? && account.lockedUntil.value > now
  }

  // The UPDATE of both failure branches.
  function Failed(account: Account, now: int): Account {
    Account(
      account.failedAttempts + 1,
      if account.failedAttempts + 1 >= MAX_FAILURES then Some(now + LOCKOUT) else account.lockedUntil)
  }

  predicate Accepted(account: Account, r: Request) {
    r.passwordOk && r.active && !Locked(account, r.at) && (r.mfaEnabled ==> r.mfaOk)
  }

  function ReplyTo(staff: Staff, r: Request): Reply {
    if r.username !in staff || !r.passwordOk || !r.active || Locked(staff[r.username], r.at) then InvalidCredentials
    else if r.mfaEnabled && !r.mfaOk then MfaRequired
    else LoggedIn
  }

  function Handle(staff: Staff, r: Request): Staff {
    if r.username !in staff then staff
    else if Accepted(staff[r.username], r) then staff[r.username := Account(0, None)]
    else staff[r.username := Failed(staff[r.username], r.at)]
  }

  // A session takes all of it: a known and active account, its password, no lock that is still
  // running, and the second factor where the account has one. The second factor alone missing
  // is told apart; everything else looks the same from outside.
  lemma LoginIs(staff: Staff, r: Request)
    ensures
      ReplyTo(staff, r) == LoggedIn <==>
        r.username in staff && r.passwordOk && r.active && (r.mfaEnabled ==> r.mfaOk)
        && (staff[r.username].lockedUntil.Some? ==> staff[r.username].lockedUntil.value <= r.at)
    ensures
      ReplyTo(staff, r) == MfaRequired <==>
        r.username in staff && r.passwordOk && r.active && r.mfaEnabled && !r.mfaOk
        && (staff[r.username].lockedUntil.Some? ==> staff[r.username].lockedUntil.value <= r.at)
    ensures Handle(staff, r).Keys == staff.Keys
    ensures forall u :: u in staff && u != r.username ==> Handle(staff, r)[u] == staff[u]
    ensures
      r.username in staff ==>
        var before, later := staff[r.username], Handle(staff, r)[r.username];
        if ReplyTo(staff, r) == LoggedIn then later.failedAttempts == 0 && later.lockedUntil == None
        else
          later.failedAttempts == before.failedAttempts + 1
          && later.lockedUntil == if before.failedAttempts >= 4 then Some(r.at + 900_000) else before.lockedUntil
  {
  }

  class StaffTable {
    var staff: Staff

    constructor (staff: Staff)
      ensures this.staff == staff
    {
      this.staff := staff;
    }

    method Login(r: Request) returns (reply: Reply)
      modifies this
      ensures staff == Handle(old(staff), r) && reply == ReplyTo(old(staff), r)
    {
      var found := r.username in staff;
      var locked := found && staff[r.username].lockedUntil.Some? && staff[r.username].lockedUntil.value > r.at;
      if !r.passwordOk || !found || !r.active || locked {
        if found {
          RecordFailure(r.username, r.at);
        }
        return InvalidCredentials;
      }
      if r.mfaEnabled {
        if !r.mfaOk {
          RecordFailure(r.username, r.at);
          return MfaRequired;
        }
      }
      staff := staff[r.username := Account(0, None)];
      reply := LoggedIn;
    }

    method RecordFailure(username: string, now: int)
      requires username in staff
      modifies this
      ensures staff == old(staff)[username := Failed(old(staff)[username], now)]
    {
      var attempts := staff[username].failedAttempts + 1;
      var until := staff[username].lockedUntil;
      if attempts >= MAX_FAILURES {
        until := Some(now + LOCKOUT);
      }
      staff := staff[username := Account(attempts, until)];
    }
  }

  /******* Runs of requests, handled one at a time *******/

  function HandleAll(staff: Staff, rs: seq<Request>): (staff': Staff)
    ensures staff'.Keys == staff.Keys
  {
    if rs == [] then staff
    else Handle(HandleAll(staff, rs[..|rs| - 1]), rs[|rs| - 1])
  }

  predicate InOrder(rs: seq<Request>) {
    forall i, j :: 0 <= i < j < |rs| ==> rs[i].at <= rs[j].at
  }

  // Request i is refused for what it presents, not for the lock.
  predicate UnlockedFailure(staff: Staff, rs: seq<Request>, username: string, i: nat)
    requires username in staff && i < |rs|
  {
    rs[i].username == username
    && !Locked(HandleAll(staff, rs[..i])[username], rs[i].at)
    && ReplyTo(HandleAll(staff, rs[..i]), rs[i]) != LoggedIn
  }

  predicate NeverLogsIn(staff: Staff, rs: seq<Request>, username: string) {
    forall i :: 0 <= i < |rs| && rs[i].username == username ==> ReplyTo(HandleAll(staff, rs[..i]), rs[i]) != LoggedIn
  }

  // When the unlocked failures of an account happen.
  function UnlockedFailures(staff: Staff, rs: seq<Request>, username: string): seq<int>
    requires username in staff
  {
    if rs == [] then []
    else
      UnlockedFailures(staff, rs[..|rs| - 1], username) +
      if UnlockedFailure(staff, rs, username, |rs| - 1) then [rs[|rs| - 1].at] else []
  }

  predicate Sorted(times: seq<int>) {
    forall i, j :: 0 <= i < j < |times| ==> times[i] <= times[j]
  }

  predicate SpacedFromFifth(times: seq<int>) {
    forall k :: 5 <= k < |times| ==> times[k] >= times[k - 1] + 900_000
  }

  // What a run without a success has left in the account.
  predicate Counted(account: Account, times: seq<int>) {
    account.failedAttempts >= |times|
    && (|times| >= MAX_FAILURES ==> account.lockedUntil.Some? && account.lockedUntil.value >= times[|times| - 1] + LOCKOUT)
  }

  lemma PrefixNeverLogsIn(staff: Staff, rs: seq<Request>, username: string)
    requires rs != [] && NeverLogsIn(staff, rs, username)
    ensures NeverLogsIn(staff, rs[..|rs| - 1], username)
  {
    var front := rs[..|rs| - 1];
    forall i | 0 <= i < |front| && front[i].username == username
      ensures ReplyTo(HandleAll(staff, front[..i]), front[i]) != LoggedIn
    {
      assert front[..i] == rs[..i] && front[i] == rs[i];
    }
  }

  // Whatever other accounts do in between and whatever state the account starts in: from its
  // fifth unlocked failure on, each comes at least the lockout time after the one before.
  lemma {:induction false} FailuresAreSpaced(staff: Staff, rs: seq<Request>, username: string)
    requires username in staff && InOrder(rs) && NeverLogsIn(staff, rs, username)
    ensures
      var times := UnlockedFailures(staff, rs, username);
      Sorted(times) && SpacedFromFifth(times) && Counted(HandleAll(staff, rs)[username], times)
      && (times != [] ==> rs != [] && times[|times| - 1] <= rs[|rs| - 1].at)
  {
    if rs != [] {
      PrefixNeverLogsIn(staff, rs, username);
      FailuresAreSpaced(staff, rs[..|rs| - 1], username);
    }
  }

  // All that is presented until the minutes after the last failure have run out.
  predicate RefusesAll(account: Account, times: seq<int>) {
    |times| >= 5 ==>
      account.failedAttempts >= 5 && account.lockedUntil.Some? && account.lockedUntil.value >= times[|times| - 1] + 900_000
  }

  lemma CountedRefuses(staff: Staff, rs: seq<Request>, username: string)
    requires username in staff && InOrder(rs) && NeverLogsIn(staff, rs, username)
    ensures RefusesAll(HandleAll(staff, rs)[username], UnlockedFailures(staff, rs, username))
  {
    FailuresAreSpaced(staff, rs, username);
  }

  // The request is turned away like any other and starts the minutes over.
  predicate Refuses(staff: Staff, r: Request)
    requires r.username in staff
  {
    ReplyTo(staff, r) == InvalidCredentials && Handle(staff, r)[r.username].lockedUntil == Some(r.at + 900_000)
  }

  lemma LockedRefuses(staff: Staff, r: Request, times: seq<int>)
    requires r.username in staff && RefusesAll(staff[r.username], times)
    requires |times| >= 5 && r.at < times[|times| - 1] + 900_000
    ensures Refuses(staff, r)
  {
  }

  // For fifteen minutes after the fifth and every later one, the account refuses everything,
  // right password or not, and each such request starts the minutes over.
  lemma LockHolds(staff: Staff, rs: seq<Request>, times: seq<int>, after: Staff, r: Request)
    requires r.username in staff && InOrder(rs) && NeverLogsIn(staff, rs, r.username)
    requires times == UnlockedFailures(staff, rs, r.username) && after == HandleAll(staff, rs)
    requires |times| >= 5 && r.at < times[|times| - 1] + 900_000
    ensures Refuses(after, r)
  {
    CountedRefuses(staff, rs, r.username);
    LockedRefuses(after, r, times);
  }

  function CountIn(times: seq<int>, from: int, to: int): nat {
    if times == [] then 0
    else CountIn(times[..|times| - 1], from, to) + if from <= times[|times| - 1] <= to then 1 else 0
  }

  lemma {:induction false} NoneBefore(times: seq<int>, from: int, to: int)
    requires forall k :: 0 <= k < |times| ==> times[k] < from
    ensures CountIn(times, from, to) == 0
  {
    if times != [] {
      NoneBefore(times[..|times| - 1], from, to);
    }
  }

  lemma {:induction false} NoneBetween(times: seq<int>, from: int, to: int, to': int)
    requires to <= to' && forall k :: 0 <= k < |times| ==> times[k] <= to
    ensures CountIn(times, from, to) == CountIn(times, from, to')
  {
    if times != [] {
      NoneBetween(times[..|times| - 1], from, to, to');
    }
  }

  lemma {:induction false} CountIsAtMostLength(times: seq<int>, from: int, to: int)
    ensures CountIn(times, from, to) <= |times|
  {
    if times != [] {
      CountIsAtMostLength(times[..|times| - 1], from, to);
    }
  }

  lemma {:induction false} SpacingBoundsTheCount(times: seq<int>, from: int, to: int)
    requires Sorted(times) && SpacedFromFifth(times) && from <= to
    ensures CountIn(times, from, to) <= 5 + (to - from) / 900_000
  {
    CountIsAtMostLength(times, from, to);
    if |times| > MAX_FAILURES {
      var front, last := times[..|times| - 1], times[|times| - 1];
      if !(from <= last <= to) {
        SpacingBoundsTheCount(front, from, to);
      } else if last - LOCKOUT < from {
        NoneBefore(front, from, to);
      } else {
        NoneBetween(front, from, last - LOCKOUT, to);
        SpacingBoundsTheCount(front, from, last - LOCKOUT);
      }
    }
  }

  // Any window of a run without a success holds at most five unlocked failures of an account
  // and one more for each full lockout time in the window.
  lemma GuessesAreBounded(staff: Staff, rs: seq<Request>, username: string, from: int, to: int)
    requires username in staff && InOrder(rs) && NeverLogsIn(staff, rs, username) && from <= to
    ensures CountIn(UnlockedFailures(staff, rs, username), from, to) <= 5 + (to - from) / 900_000
  {
    FailuresAreSpaced(staff, rs, username);
    SpacingBoundsTheCount(UnlockedFailures(staff, rs, username), from, to);
  }

  /******* The bound is attained *******/

  function Guess(username: string, at: int): Request {
    Request(username, at, false, true, false, false)
  }

  function GuessTime(k: nat): nat {
    if k < MAX_FAILURES then 0 else GuessTime(k - 1) + LOCKOUT
  }

  lemma {:induction false} GuessTimeIsExact(k: nat)
    ensures k >= MAX_FAILURES - 1 ==> GuessTime(k) / LOCKOUT == k - (MAX_FAILURES - 1) && GuessTime(k) % LOCKOUT == 0
  {
    if k >= MAX_FAILURES {
      GuessTimeIsExact(k - 1);
    }
  }

  // Five wrong passwords at once, then one each time the lock runs out.
  function PatientGuesses(username: string, n: nat): (rs: seq<Request>)
    ensures |rs| == n
  {
    if n == 0 then [] else PatientGuesses(username, n - 1) + [Guess(username, GuessTime(n - 1))]
  }

  function AfterGuesses(n: nat): Account {
    Account(n, if n < MAX_FAILURES then None else Some(GuessTime(n - 1) + LOCKOUT))
  }

  function GuessTimes(n: nat): seq<int> {
    if n == 0 then [] else GuessTimes(n - 1) + [GuessTime(n - 1)]
  }

  lemma OneMoreGuess(account: Account, n: nat)
    requires n > 0 && account == AfterGuesses(n - 1)
    ensures !Locked(account, GuessTime(n - 1)) && Failed(account, GuessTime(n - 1)) == AfterGuesses(n)
  {
  }

  lemma {:induction false} PatientGuessesFail(staff: Staff, username: string, n: nat)
    requires username in staff && staff[username] == Account(0, None)
    ensures HandleAll(staff, PatientGuesses(username, n))[username] == AfterGuesses(n)
    ensures UnlockedFailures(staff, PatientGuesses(username, n), username) == GuessTimes(n)
  {
    if n > 0 {
      PatientGuessesFail(staff, username, n - 1);
      var rs := PatientGuesses(username, n);
      assert rs[..n - 1] == PatientGuesses(username, n - 1);
      OneMoreGuess(HandleAll(staff, rs[..n - 1])[username], n);
    }
  }

  lemma {:induction false} GuessesComeInOrder(username: string, n: nat)
    ensures forall i :: 0 <= i < n ==> PatientGuesses(username, n)[i] == Guess(username, GuessTime(i))
    ensures InOrder(PatientGuesses(username, n))
    ensures n > 0 ==> forall i :: 0 <= i < n ==> GuessTime(i) <= GuessTime(n - 1)
  {
    if n > 0 {
      GuessesComeInOrder(username, n - 1);
    }
  }

  lemma GuessesNeverLogIn(staff: Staff, username: string, n: nat)
    ensures NeverLogsIn(staff, PatientGuesses(username, n), username)
  {
    GuessesComeInOrder(username, n);
  }

  lemma {:induction false} CountGuesses(n: nat, to: int)
    requires n > 0 && GuessTime(n - 1) <= to
    ensures CountIn(GuessTimes(n), 0, to) == n
  {
    assert GuessTimes(n)[..n - 1] == GuessTimes(n - 1) by {
      LengthOfGuessTimes(n - 1);
    }
    LengthOfGuessTimes(n);
    if n > 1 {
      CountGuesses(n - 1, to);
    }
  }

  lemma LengthOfGuessTimes(n: nat)
    ensures |GuessTimes(n)| == n
  {
  }

  // For every number of windows there is a run with as many unlocked failures as the bound allows.
  lemma BoundIsAttained(staff: Staff, username: string, n: nat)
    requires username in staff && staff[username] == Account(0, None) && n >= 5
    ensures InOrder(PatientGuesses(username, n)) && NeverLogsIn(staff, PatientGuesses(username, n), username)
    ensures
      var to := GuessTime(n - 1);
      CountIn(UnlockedFailures(staff, PatientGuesses(username, n), username), 0, to) == 5 + to / 900_000
      && to / 900_000 == n - 5
  {
    GuessesComeInOrder(username, n);
    GuessesNeverLogIn(staff, username, n);
    AttainedCount(staff, username, n);
  }

  lemma AttainedCount(staff: Staff, username: string, n: nat)
    requires username in staff && staff[username] == Account(0, None) && n >= 5
    ensures
      var to := GuessTime(n - 1);
      CountIn(UnlockedFailures(staff, PatientGuesses(username, n), username), 0, to) == 5 + to / 900_000
      && to / 900_000 == n - 5
  {
    PatientGuessesFail(staff, username, n);
    GuessTimeIsExact(n - 1);
    CountGuesses(n, GuessTime(n - 1));
    assert GuessTime(n - 1) / LOCKOUT == n - MAX_FAILURES;
  }

  /******* The lock is temporary *******/

  // No lock outlasts the lockout time after the last request.
  predicate LocksEndBy(staff: Staff, end: int) {
    forall u :: u in staff && staff[u].lockedUntil.Some? ==> staff[u].lockedUntil.value <= end
  }

  lemma {:induction false} LocksRunOut(staff: Staff, rs: seq<Request>, end: int)
    requires LocksEndBy(staff, end) && forall i :: 0 <= i < |rs| ==> rs[i].at + LOCKOUT <= end
    ensures LocksEndBy(HandleAll(staff, rs), end)
  {
    if rs != [] {
      LocksRunOut(staff, rs[..|rs| - 1], end);
    }
  }

  // After the lockout time without a request, good credentials log in, whatever went before; and
  // nothing but good credentials, presented to an account that is not locked, ever does.
  lemma QuietAccountLogsIn(staff: Staff, rs: seq<Request>, r: Request)
    requires r.username in staff && LocksEndBy(staff, r.at)
    requires forall i :: 0 <= i < |rs| ==> rs[i].at + 900_000 <= r.at
    ensures ReplyTo(HandleAll(staff, rs), r) == LoggedIn <==> r.passwordOk && r.active && (r.mfaEnabled ==> r.mfaOk)
    ensures ReplyTo(HandleAll(staff, rs), r) == LoggedIn ==> Handle(HandleAll(staff, rs), r)[r.username] == Account(0, None)
  {
    LocksRunOut(staff, rs, r.at);
  }

  lemma {:induction false} OthersAreUntouched(staff: Staff, rs: seq<Request>, username: string)
    requires username in staff && forall i :: 0 <= i < |rs| ==> rs[i].username != username
    ensures HandleAll(staff, rs)[username] == staff[username]
  {
    if rs != [] {
      OthersAreUntouched(staff, rs[..|rs| - 1], username);
    }
  }
}
