// The founding campaign: concurrent joins that number the members under a lock on the
// campaign's row.
module Founding {
  import opened Basics
  import opened Identifiers

  datatype CampaignRow = CampaignRow(capacity: nat, issued: nat, active: bool)

  // CHECK (founder_number BETWEEN 1 AND 1000)
  const LAST_NUMBER := 1000

  // The committed tables. The campaign's row may be missing.
  datatype Tables = Tables(campaign: Option<CampaignRow>, members: map<CustomerId, nat>)

  datatype Reply =
    | Member(number: nat, existing: bool)
    | Closed
    | Full
    | Duplicate       // the unique index on (campaign, customer)
    | NumberTaken     // the unique index on (campaign, number)
    | NumberRefused   // a CHECK on the number or the count
    | Failed          // the connection, the server or the process

  // Where a join transaction stands. From Locked on it holds the lock on the campaign's row.
  datatype Pc =
    | Begun
    | Looked
    | Locked(issued: nat)
    | Inserted(number: nat)
    | Updated(number: nat)
    | Done(reply: Reply)

  datatype Join = Join(customer: CustomerId, pc: Pc)

  datatype System = System(tables: Tables, joins: seq<Join>)

  predicate HoldsLock(j: Join) {
    j.pc.Locked? || j.pc.Inserted? || j.pc.Updated?
  }

  predicate LockIsFree(joins: seq<Join>) {
    forall i :: 0 <= i < |joins| ==> !HoldsLock(joins[i])
  }

  predicate Issued(members: map<CustomerId, nat>, number: int) {
    exists c :: c in members && members[c] == number
  }

  // What the INSERT of a member meets.
  function InsertFault(t: Tables, customer: CustomerId, number: nat): Option<Reply> {
    if !(1 <= number <= LAST_NUMBER) then Some(NumberRefused)
    else if customer in t.members then Some(Duplicate)
    else if Issued(t.members, number) then Some(NumberTaken)
    else None
  }

  // One statement of a join. COMMIT makes both writes visible at once; every error rolls back.
  function Statement(t: Tables, j: Join): (Tables, Pc) {
    match j.pc
    case Begun =>
      (t, if j.customer in t.members then Done(Member(t.members[j.customer], true)) else Looked)
    case Looked =>
      (t,
       if t.campaign.None? || !t.campaign.value.active then Done(Closed)
       else if t.campaign.value.issued >= t.campaign.value.capacity then Done(Full)
       else Locked(t.campaign.value.issued))
    case Locked(issued) =>
      var fault := InsertFault(t, j.customer, issued + 1);
      (t, if fault.Some? then Done(fault.value) else Inserted(issued + 1))
    case Inserted(number) =>
      (t, if t.campaign.Some? && number <= t.campaign.value.capacity then Updated(number) else Done(NumberRefused))
    case Updated(number) =>
      (Tables(
        if t.campaign.Some? then Some(t.campaign.value.(issued := number)) else None,
        t.members[j.customer := number]),
       Done(Member(number, false)))
    case Done(_) => (t, j.pc)
  }

  datatype Action =
    | Start(customer: CustomerId)
    | Step(join: nat)
    | Fail(join: nat)
    | Configure(active: bool, capacity: nat)

  // The statement that locks the row waits while another join holds it, as does any other writer.
  predicate Enabled(s: System, a: Action) {
    match a
    case Start(_) => true
    case Step(i) => i < |s.joins| && !s.joins[i].pc.Done? && (s.joins[i].pc.Looked? ==> LockIsFree(s.joins))
    case Fail(i) => i < |s.joins| && !s.joins[i].pc.Done?
    case Configure(_, capacity) =>
      LockIsFree(s.joins) && s.tables.campaign.Some? && capacity > 0 && s.tables.campaign.value.issued <= capacity
  }

  function Next(s: System, a: Action): System
    requires Enabled(s, a)
  {
    match a
    case Start(customer) => s.(joins := s.joins + [Join(customer, Begun)])
    case Step(i) =>
      var (tables, pc) := Statement(s.tables, s.joins[i]);
      System(tables, s.joins[i := s.joins[i].(pc := pc)])
    case Fail(i) => s.(joins := s.joins[i := s.joins[i].(pc := Done(Failed))])
    case Configure(active, capacity) =>
      s.(tables := s.tables.(campaign := Some(s.tables.campaign.value.(active := active, capacity := capacity))))
  }

  predicate Run(s: System, actions: seq<Action>, s': System)
    decreases |actions|
  {
    if actions == [] then s == s'
    else Enabled(s, actions[0]) && Run(Next(s, actions[0]), actions[1..], s')
  }

  /******* What every step keeps *******/

  // The numbers are 1 up to the count, one for each member.
  ghost predicate NumberedExactly(t: Tables) {
    match t.campaign
    case None => t.members == map[]
    case Some(c) =>
      c.issued <= c.capacity
      && (forall x, y :: x in t.members && y in t.members && t.members[x] == t.members[y] ==> x == y)
      && (forall n :: Issued(t.members, n) <==> 1 <= n <= c.issued)
  }

  // What a join knows, given the committed tables.
  predicate Knows(t: Tables, j: Join) {
    match j.pc
    case Locked(issued) => t.campaign.Some? && issued == t.campaign.value.issued && issued < t.campaign.value.capacity
    case Inserted(number) => OwnsNext(t, j.customer, number)
    case Updated(number) => OwnsNext(t, j.customer, number)
    case Done(Member(number, _)) => j.customer in t.members && t.members[j.customer] == number
    case _ => true
  }

  predicate OwnsNext(t: Tables, customer: CustomerId, number: nat) {
    t.campaign.Some? && number == t.campaign.value.issued + 1 && number <= t.campaign.value.capacity
    && number <= LAST_NUMBER && customer !in t.members
  }

  predicate OneHolder(joins: seq<Join>) {
    forall i, j :: 0 <= i < j < |joins| ==> !(HoldsLock(joins[i]) && HoldsLock(joins[j]))
  }

  ghost predicate Inv(s: System) {
    NumberedExactly(s.tables) && OneHolder(s.joins) && forall i :: 0 <= i < |s.joins| ==> Knows(s.tables, s.joins[i])
  }

  // Members are added, never changed or removed.
  predicate MembersGrow(t: Tables, t': Tables) {
    forall c :: c in t.members ==> c in t'.members && t'.members[c] == t.members[c]
  }

  lemma CommitNumbersExactly(t: Tables, customer: CustomerId, number: nat)
    requires NumberedExactly(t) && OwnsNext(t, customer, number)
    ensures NumberedExactly(Statement(t, Join(customer, Updated(number))).0)
  {
    var t' := Statement(t, Join(customer, Updated(number))).0;
    var c := t.campaign.value;
    forall z | z in t.members ensures 1 <= t.members[z] <= c.issued {
      assert Issued(t.members, t.members[z]);
    }
    forall n ensures Issued(t'.members, n) <==> 1 <= n <= number {
      if 1 <= n <= c.issued {
        assert Issued(t.members, n);
        var x :| x in t.members && t.members[x] == n;
        assert x in t'.members && t'.members[x] == n;
      } else if n == number {
        assert customer in t'.members && t'.members[customer] == n;
      }
    }
  }

  lemma StatementKeepsInv(s: System, i: nat)
    requires Inv(s) && Enabled(s, Step(i))
    ensures Inv(Next(s, Step(i))) && MembersGrow(s.tables, Next(s, Step(i)).tables)
  {
    var j, s' := s.joins[i], Next(s, Step(i));
    assert Knows(s.tables, j);
    if j.pc.Updated? {
      CommitNumbersExactly(s.tables, j.customer, j.pc.number);
      forall k | 0 <= k < |s'.joins| ensures Knows(s'.tables, s'.joins[k]) {
        if k != i {
          assert Knows(s.tables, s.joins[k]);
          assert !HoldsLock(s.joins[k]);
        }
      }
    } else {
      assert s'.tables == s.tables;
      forall k | 0 <= k < |s'.joins| ensures Knows(s'.tables, s'.joins[k]) {
        assert Knows(s.tables, s.joins[k]);
      }
    }
  }

  lemma NextKeepsInv(s: System, a: Action)
    requires Inv(s) && Enabled(s, a)
    ensures Inv(Next(s, a)) && MembersGrow(s.tables, Next(s, a).tables)
  {
    match a
    case Step(i) => StatementKeepsInv(s, i);
    case Start(customer) =>
    case Fail(i) =>
    case Configure(active, capacity) =>
      var s' := Next(s, a);
      forall k | 0 <= k < |s'.joins| ensures Knows(s'.tables, s'.joins[k]) {
        assert Knows(s.tables, s.joins[k]) && !HoldsLock(s.joins[k]);
      }
  }

  // In every interleaving of joins, failures and changes of the campaign, the numbers handed out
  // are exactly 1 up to the count, one for each member, and never more than the capacity.
  lemma {:induction false} NumbersHaveNoGaps(s: System, actions: seq<Action>, s': System)
    requires Inv(s) && Run(s, actions, s')
    ensures Inv(s') && MembersGrow(s.tables, s'.tables)
    decreases |actions|
  {
    if actions != [] {
      NextKeepsInv(s, actions[0]);
      NumbersHaveNoGaps(Next(s, actions[0]), actions[1..], s');
    }
  }

  // The count is the number of members.
  lemma {:induction false} CountIsMembership(members: map<CustomerId, nat>, n: nat)
    requires forall x, y :: x in members && y in members && members[x] == members[y] ==> x == y
    requires forall k :: Issued(members, k) <==> 1 <= k <= n
    ensures |members| == n
  {
    if n == 0 {
      forall x | x in members ensures false {
        assert Issued(members, members[x]);
      }
      assert members == map[];
    } else {
      assert Issued(members, n);
      var x :| x in members && members[x] == n;
      var rest := members - {x};
      forall k ensures Issued(rest, k) <==> 1 <= k <= n - 1 {
        if Issued(members, k) && k != n {
          var y :| y in members && members[y] == k;
          assert y in rest && rest[y] == k;
        }
        if Issued(rest, k) {
          var y :| y in rest && rest[y] == k;
          assert y in members && members[y] == k;
          assert Issued(members, k);
        }
      }
      CountIsMembership(rest, n - 1);
      assert members == rest[x := n];
    }
  }

  /******* What a customer is told *******/

  // Once a customer is a member, every join they start from then on that is answered with a
  // number is answered with the same one, and the only other answers are failures.
  predicate Rejoins(t: Tables, j: Join) {
    j.customer in t.members
    && (j.pc == Begun || j.pc == Done(Failed) || j.pc == Done(Member(t.members[j.customer], true)))
  }

  lemma {:induction false} RejoinRun(s: System, actions: seq<Action>, s': System, i: nat)
    requires Inv(s) && Run(s, actions, s') && i < |s.joins| && Rejoins(s.tables, s.joins[i])
    ensures i < |s'.joins| && s'.joins[i].customer == s.joins[i].customer && Rejoins(s'.tables, s'.joins[i])
    ensures s'.tables.members[s.joins[i].customer] == s.tables.members[s.joins[i].customer]
    decreases |actions|
  {
    if actions != [] {
      NextKeepsInv(s, actions[0]);
      RejoinRun(Next(s, actions[0]), actions[1..], s', i);
    }
  }

  // A join that was given a number stays the truth, whenever it is looked at; two joins of one
  // customer are given the same number and two joins of different customers different ones.
  lemma NumbersIdentifyCustomers(s: System, actions: seq<Action>, s': System, i: nat, j: nat)
    requires Inv(s) && Run(s, actions, s')
    requires i < |s'.joins| && s'.joins[i].pc.Done? && s'.joins[i].pc.reply.Member?
    requires j < |s'.joins| && s'.joins[j].pc.Done? && s'.joins[j].pc.reply.Member?
    ensures s'.joins[i].pc.reply.number == s'.joins[j].pc.reply.number <==> s'.joins[i].customer == s'.joins[j].customer
    ensures s'.tables.campaign.Some? && 1 <= s'.joins[i].pc.reply.number <= s'.tables.campaign.value.issued
  {
    NumbersHaveNoGaps(s, actions, s');
    assert Knows(s'.tables, s'.joins[i]) && Knows(s'.tables, s'.joins[j]);
    assert Issued(s'.tables.members, s'.joins[i].pc.reply.number);
  }

  // The number index is never hit: a join is refused by a constraint only when the customer
  // became a member meanwhile or the number is past the last one the table admits.
  lemma RefusalsAreExact(s: System, i: nat)
    requires Inv(s) && Enabled(s, Step(i))
    ensures
      var j := s.joins[i];
      var reply := Next(s, Step(i)).joins[i].pc;
      reply != Done(NumberTaken)
      && (reply == Done(Duplicate) ==> j.pc.Locked? && j.customer in s.tables.members)
      && (reply == Done(NumberRefused) <==> j.pc.Locked? && s.tables.campaign.value.issued >= 1000)
      && (reply == Done(Full) <==> j.pc.Looked? && s.tables.campaign.Some? && s.tables.campaign.value.active
                                   && s.tables.campaign.value.issued == s.tables.campaign.value.capacity)
  {
    assert Knows(s.tables, s.joins[i]);
  }

  predicate Open(t: Tables) {
    t.campaign.Some? && t.campaign.value.active
  }

  // Where a join stands that is not on its way to a number.
  predicate NotAdmitted(members: map<CustomerId, nat>, j: Join) {
    match j.pc
    case Begun => true
    case Looked => true
    case Done(Member(number, existing)) => existing && j.customer in members && members[j.customer] == number
    case Done(reply) => reply == Closed || reply == Failed
    case _ => false
  }

  // From a moment at which the campaign is closed or missing and nobody holds the lock, until
  // someone opens it: nobody becomes a member, and whoever comes is told that it is closed,
  // unless they are a member or the join fails.
  lemma {:induction false} ClosedAdmitsNobody(s: System, actions: seq<Action>, s': System, from: nat)
    requires Run(s, actions, s') && !Open(s.tables) && LockIsFree(s.joins)
    requires forall k :: 0 <= k < |actions| ==> !(actions[k].Configure? && actions[k].active)
    requires from <= |s.joins| && forall i :: from <= i < |s.joins| ==> NotAdmitted(s.tables.members, s.joins[i])
    ensures !Open(s'.tables) && LockIsFree(s'.joins) && s'.tables.members == s.tables.members
    ensures |s.joins| <= |s'.joins| && forall i :: from <= i < |s'.joins| ==> NotAdmitted(s.tables.members, s'.joins[i])
    decreases |actions|
  {
    if actions != [] {
      ClosedStep(s, actions[0], from);
      ClosedAdmitsNobody(Next(s, actions[0]), actions[1..], s', from);
    }
  }

  lemma ClosedStep(s: System, a: Action, from: nat)
    requires Enabled(s, a) && !Open(s.tables) && LockIsFree(s.joins) && !(a.Configure? && a.active)
    requires from <= |s.joins| && forall i :: from <= i < |s.joins| ==> NotAdmitted(s.tables.members, s.joins[i])
    ensures
      var s' := Next(s, a);
      !Open(s'.tables) && LockIsFree(s'.joins) && s'.tables.members == s.tables.members && |s.joins| <= |s'.joins|
      && forall i :: from <= i < |s'.joins| ==> NotAdmitted(s.tables.members, s'.joins[i])
  {
    if a.Step? {
      assert !HoldsLock(s.joins[a.join]);
      assert Next(s, a).joins == s.joins[a.join := s.joins[a.join].(pc := Statement(s.tables, s.joins[a.join]).1)];
    }
  }

  /******* One join by itself *******/

  function JoinReply(t: Tables, customer: CustomerId): Reply {
    if customer in t.members then Member(t.members[customer], true)
    else if t.campaign.None? || !t.campaign.value.active then Closed
    else if t.campaign.value.issued >= t.campaign.value.capacity then Full
    else if InsertFault(t, customer, t.campaign.value.issued + 1).Some? then
      InsertFault(t, customer, t.campaign.value.issued + 1).value
    else Member(t.campaign.value.issued + 1, false)
  }

  // A new member is one who is not a member yet while the campaign is open and has a number
  // left, and the number is the next one. Each other reply has its own reason.
  lemma JoinIs(t: Tables, customer: CustomerId, number: nat)
    requires NumberedExactly(t)
    ensures
      JoinReply(t, customer) == Member(number, true) <==> customer in t.members && t.members[customer] == number
    ensures
      JoinReply(t, customer) == Member(number, false) <==>
        customer !in t.members && t.campaign.Some? && t.campaign.value.active && number == |t.members| + 1
        && number <= t.campaign.value.capacity && number <= 1000
    ensures
      JoinReply(t, customer) == Closed <==>
        customer !in t.members && (t.campaign.None? || !t.campaign.value.active)
    ensures
      JoinReply(t, customer) == Full <==>
        customer !in t.members && t.campaign.Some? && t.campaign.value.active && |t.members| == t.campaign.value.capacity
    ensures
      JoinReply(t, customer) == NumberRefused <==>
        customer !in t.members && t.campaign.Some? && t.campaign.value.active
        && |t.members| < t.campaign.value.capacity && |t.members| >= 1000
    ensures JoinReply(t, customer) !in {Duplicate, NumberTaken, Failed}
  {
    if t.campaign.Some? {
      CountIsMembership(t.members, t.campaign.value.issued);
    }
  }

  class FoundingCampaign {
    var campaign: Option<CampaignRow>
    var members: map<CustomerId, nat>

    constructor (t: Tables)
      ensures Now() == t
    {
      campaign, members := t.campaign, t.members;
    }

    function Now(): Tables
      reads this
    {
      Tables(campaign, members)
    }

    method Join(customer: CustomerId) returns (reply: Reply)
      modifies this
      ensures reply == JoinReply(old(Now()), customer)
      ensures reply.Member? && !reply.existing ==>
                Now() == Tables(Some(old(campaign).value.(issued := reply.number)), old(members)[customer := reply.number])
      ensures !(reply.Member? && !reply.existing) ==> Now() == old(Now())
    {
      if customer in members {
        return Member(members[customer], true);
      }
      if campaign.None? || !campaign.value.active {
        return Closed;
      }
      if campaign.value.issued >= campaign.value.capacity {
        return Full;
      }
      var number := campaign.value.issued + 1;
      var fault := InsertFault(Now(), customer, number);
      if fault.Some? {
        return fault.value;
      }
      members := members[customer := number];
      campaign := Some(campaign.value.(issued := number));
      reply := Member(number, false);
    }
  }

  function StatementsLeft(pc: Pc): nat {
    match pc
    case Begun => 5
    case Looked => 4
    case Locked(_) => 3
    case Inserted(_) => 2
    case Updated(_) => 1
    case Done(_) => 0
  }

  // A join that nothing interrupts.
  function RunAlone(t: Tables, j: Join): (Tables, Join)
    decreases StatementsLeft(j.pc)
  {
    if j.pc.Done? then (t, j)
    else
      var (t', pc) := Statement(t, j);
      RunAlone(t', j.(pc := pc))
  }

  lemma AloneStep(t: Tables, j: Join)
    requires !j.pc.Done?
    ensures RunAlone(t, j) == RunAlone(Statement(t, j).0, j.(pc := Statement(t, j).1))
  {
  }

  // The statements of a join that nothing interrupts are the call.
  lemma CallIsTheStatements(t: Tables, customer: CustomerId)
    ensures
      var (t', j) := RunAlone(t, Join(customer, Begun));
      var reply := JoinReply(t, customer);
      j == Join(customer, Done(reply))
      && t' == if reply.Member? && !reply.existing
               then Tables(Some(t.campaign.value.(issued := reply.number)), t.members[customer := reply.number])
               else t
  {
    AloneStep(t, Join(customer, Begun));
    if customer !in t.members {
      AloneStep(t, Join(customer, Looked));
      if t.campaign.Some? && t.campaign.value.active && t.campaign.value.issued < t.campaign.value.capacity {
        var number := t.campaign.value.issued + 1;
        AloneStep(t, Join(customer, Locked(number - 1)));
        if InsertFault(t, customer, number).None? {
          AloneStep(t, Join(customer, Inserted(number)));
          AloneStep(t, Join(customer, Updated(number)));
        }
      }
    }
  }
}
