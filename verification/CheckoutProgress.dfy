// No set of concurrent checkouts and cancellations deadlocks: waits always lead upwards in a
// fixed order of locks, so some unfinished transaction can take its next step.
module CheckoutProgress {
  import opened Basics
  import opened ShopDb
  import opened CheckoutProtocol
  import opened CheckoutSafety

  /******* The order of locks *******/

  // Idempotency keys first, then rows, then products in ascending order.
  function Level(l: Lock): nat {
    match l
    case KeyLock(_, _) => 0
    case CartLock(_) => 1
    case OrderLock(_) => 1
    case ProductLock(_, _) => 2
  }

  predicate Below(l: Lock, m: Lock) {
    Level(l) < Level(m) || (l.ProductLock? && m.ProductLock? && l.product < m.product)
  }

  // A reply that the transaction's next statement accepts; never a failure.
  function Reply(tx: Tx): (input: Input)
    ensures input != Fail && input != UniqueViolation
  {
    match tx.pc
    case NewRequest(_) => Assign(Ok(0))
    case LockingProducts(_, _, lines, held) => if held < |lines| then Proceed else Catalogue(map[])
    case Checked(_, _, _, _) => Quote(Ok(0.0))
    case _ => Proceed
  }

  lemma ReplyAccepted(db: Db, tx: Tx)
    requires TxInv(db, tx) && !tx.pc.Finished?
    ensures TxNext(db, tx, Reply(tx)).Some? && WellFormed(TxNext(db, tx, Reply(tx)).value.1)
  {
    StepKeepsForm(db, tx, Reply(tx));
  }

  // The locks the next statement has to obtain.
  function Wanted(db: Db, tx: Tx): set<Lock>
    requires TxInv(db, tx) && !tx.pc.Finished?
  {
    ReplyAccepted(db, tx);
    HeldBy(TxNext(db, tx, Reply(tx)).value.1) - HeldBy(tx)
  }

  // The lock that the next statement takes, if it takes one.
  function NextLock(tx: Tx): set<Lock> {
    match tx.job
    case Cancellation(order, _) => if tx.pc.Begun? then {OrderLock(order)} else {}
    case Checkout(req) =>
      match tx.pc
      case Begun => {KeyLock(req.customer, req.key)}
      case StoreChosen(_, _) => {CartLock(req.cart)}
      case LockingProducts(_, store, lines, held) => if held < |lines| then {ProductLock(store, lines[held].product)} else {}
      case _ => {}
  }

  lemma WantedIsNextLock(db: Db, tx: Tx)
    requires TxInv(db, tx) && !tx.pc.Finished?
    ensures Wanted(db, tx) <= NextLock(tx) - HeldBy(tx)
  {
    ReplyAccepted(db, tx);
    if tx.pc.LockingProducts? && tx.pc.held < |tx.pc.lines| {
      var held, lines, store := tx.pc.held, tx.pc.lines, tx.pc.store;
      assert ProductLocks(store, lines, held + 1) == ProductLocks(store, lines, held) + {ProductLock(store, lines[held].product)};
    }
  }

  // The lock of a repeated product is held already; any other lies above all that are.
  lemma NewLockIsAboveHeld(db: Db, tx: Tx)
    requires TxInv(db, tx)
    ensures AllBelow(HeldBy(tx), NextLock(tx) - HeldBy(tx))
  {
    if tx.job.Checkout? && tx.pc.LockingProducts? && tx.pc.held < |tx.pc.lines| {
      var held, lines := tx.pc.held, tx.pc.lines;
      assert forall i :: 0 <= i < held ==> lines[i].product <= lines[held].product;
    }
  }

  // Every lock of a lies below every lock of b.
  predicate AllBelow(a: set<Lock>, b: set<Lock>) {
    forall v, w :: v in a && w in b ==> Below(v, w)
  }

  lemma NothingBelowItself(a: set<Lock>)
    requires a != {}
    ensures !AllBelow(a, a)
  {
    var v :| v in a;
    assert !Below(v, v);
  }

  lemma AllBelowTransitive(a: set<Lock>, b: set<Lock>, c: set<Lock>)
    requires AllBelow(a, b) && b != {} && AllBelow(b, c)
    ensures AllBelow(a, c)
  {
    var between :| between in b;
    forall v, w | v in a && w in c ensures Below(v, w) {
      assert Below(v, between) && Below(between, w);
    }
  }

  lemma OverlapLeadsUpwards(held: set<Lock>, wanted: set<Lock>, next: set<Lock>)
    requires !(held !! wanted) && AllBelow(held, next) && |wanted| <= 1
    ensures AllBelow(wanted, next)
  {
    var l :| l in held && l in wanted;
    forall v | v in wanted ensures v == l {
      assert wanted == {l} + (wanted - {l});
    }
  }

  // A statement waits for one lock at a time, and that lock lies above all those already held.
  lemma WantedIsAboveHeld(db: Db, tx: Tx)
    requires TxInv(db, tx) && !tx.pc.Finished?
    ensures AllBelow(HeldBy(tx), Wanted(db, tx)) && |Wanted(db, tx)| <= 1
  {
    WantedIsNextLock(db, tx);
    NewLockIsAboveHeld(db, tx);
    SubsetIsSmaller(Wanted(db, tx), NextLock(tx));
  }

  lemma SubsetIsSmaller(a: set<Lock>, b: set<Lock>)
    requires a <= b
    ensures |a| <= |b|
  {
    assert b == a + (b - a);
  }

  /******* Waiting *******/

  ghost predicate Unfinished(sys: System, t: TxId) {
    SysInv(sys) && t in sys.txs && !sys.txs[t].pc.Finished?
  }

  ghost function WantedBy(sys: System, t: TxId): set<Lock>
    requires Unfinished(sys, t)
  {
    Wanted(sys.db, sys.txs[t])
  }

  // The next statement of t needs a lock that u holds.
  ghost predicate WaitsFor(sys: System, t: TxId, u: TxId) {
    Unfinished(sys, t) && u in sys.txs && t != u && !(HeldBy(sys.txs[u]) !! WantedBy(sys, t))
  }

  ghost predicate CanStep(sys: System, t: TxId) {
    Unfinished(sys, t) && Next(sys, Advance(t, Reply(sys.txs[t]))).Some?
  }

  lemma BlockedWaitsForSomeone(sys: System, t: TxId)
    requires Unfinished(sys, t) && !CanStep(sys, t)
    ensures exists u :: WaitsFor(sys, t, u)
  {
    ReplyAccepted(sys.db, sys.txs[t]);
    assert !LocksFree(sys, t, WantedBy(sys, t));
    var u :| u in sys.txs && u != t && !(HeldBy(sys.txs[u]) !! WantedBy(sys, t));
    assert WaitsFor(sys, t, u);
  }

  // Whoever is waited for is unfinished, and waits, if at all, for a lock above.
  lemma WaitsLeadUpwards(sys: System, t: TxId, u: TxId)
    requires WaitsFor(sys, t, u)
    ensures Unfinished(sys, u) && WantedBy(sys, t) != {} && AllBelow(WantedBy(sys, t), WantedBy(sys, u))
  {
    assert TxInv(sys.db, sys.txs[t]) && TxInv(sys.db, sys.txs[u]);
    HolderIsUnfinished(sys.txs[u]);
    WantedIsAboveHeld(sys.db, sys.txs[t]);
    WantedIsAboveHeld(sys.db, sys.txs[u]);
    OverlapLeadsUpwards(HeldBy(sys.txs[u]), WantedBy(sys, t), WantedBy(sys, u));
  }

  lemma HolderIsUnfinished(tx: Tx)
    requires WellFormed(tx) && HeldBy(tx) != {}
    ensures !tx.pc.Finished?
  {
  }

  // t waits for a lock below every lock that u waits for.
  ghost predicate WantsBelow(sys: System, t: TxId, u: TxId) {
    Unfinished(sys, t) && Unfinished(sys, u) && WantedBy(sys, t) != {} && AllBelow(WantedBy(sys, t), WantedBy(sys, u))
  }

  lemma WantsBelowTransitive(sys: System, t: TxId, u: TxId, x: TxId)
    requires WantsBelow(sys, t, u) && WantsBelow(sys, u, x)
    ensures WantsBelow(sys, t, x)
  {
    AllBelowTransitive(WantedBy(sys, t), WantedBy(sys, u), WantedBy(sys, x));
  }

  lemma WantsBelowIrreflexive(sys: System, t: TxId)
    ensures !WantsBelow(sys, t, t)
  {
    if WantsBelow(sys, t, t) {
      NothingBelowItself(WantedBy(sys, t));
      assert false;
    }
  }

  ghost predicate WaitChain(sys: System, path: seq<TxId>) {
    forall i :: 1 <= i < |path| ==> WaitsFor(sys, path[i - 1], path[i])
  }

  lemma {:induction false} ChainsClimb(sys: System, path: seq<TxId>)
    requires |path| >= 2 && WaitChain(sys, path)
    ensures WantsBelow(sys, path[0], path[|path| - 1])
  {
    var n := |path| - 1;
    assert WantsBelow(sys, path[n - 1], path[n]) by {
      WaitsLeadUpwards(sys, path[n - 1], path[n]);
    }
    if n >= 2 {
      ChainsClimb(sys, path[..n]);
      WantsBelowTransitive(sys, path[0], path[n - 1], path[n]);
    }
  }

  // The wait-for graph has no cycle.
  lemma NoWaitCycle(sys: System, path: seq<TxId>)
    requires |path| >= 2 && WaitChain(sys, path)
    ensures path[0] != path[|path| - 1]
  {
    ChainsClimb(sys, path);
    WantsBelowIrreflexive(sys, path[0]);
  }

  // Following the waits upwards from any unfinished transaction ends at one that can step.
  lemma {:induction false} FollowWaits(sys: System, t: TxId, passed: set<TxId>) returns (u: TxId)
    requires Unfinished(sys, t) && passed <= sys.txs.Keys && t !in passed
    requires forall p :: p in passed ==> WantsBelow(sys, p, t)
    ensures CanStep(sys, u)
    decreases |sys.txs.Keys - passed|
  {
    if CanStep(sys, t) {
      return t;
    }
    BlockedWaitsForSomeone(sys, t);
    var next :| WaitsFor(sys, t, next);
    assert WantsBelow(sys, t, next) by {
      WaitsLeadUpwards(sys, t, next);
    }
    forall p | p in passed + {t} ensures WantsBelow(sys, p, next) && p != next {
      if p != t {
        WantsBelowTransitive(sys, p, t, next);
      }
      WantsBelowIrreflexive(sys, next);
    }
    assert sys.txs.Keys - (passed + {t}) == (sys.txs.Keys - passed) - {t};
    u := FollowWaits(sys, next, passed + {t});
  }

  // In every interleaving, while any transaction is unfinished some transaction can step.
  lemma NoDeadlock(sys: System, actions: seq<Action>, t: TxId)
    requires SysInv(sys) && Run(sys, actions).Some?
    requires t in Run(sys, actions).value.txs && !Run(sys, actions).value.txs[t].pc.Finished?
    ensures exists u :: CanStep(Run(sys, actions).value, u)
  {
    RunKeepsInv(sys, actions);
    var u := FollowWaits(Run(sys, actions).value, t, {});
  }

  /******* Every transaction can be brought to its end *******/

  // A list of distinct transactions, by which their progress is added up.
  predicate Lists(ids: seq<TxId>, txs: map<TxId, Tx>) {
    (forall i :: 0 <= i < |ids| ==> ids[i] in txs)
    && (forall t :: t in txs ==> t in ids)
    && forall i, j :: 0 <= i < j < |ids| ==> ids[i] != ids[j]
  }

  lemma {:induction false} SomeList(txs: set<TxId>) returns (ids: seq<TxId>)
    ensures forall t :: t in txs <==> t in ids
    ensures forall i, j :: 0 <= i < j < |ids| ==> ids[i] != ids[j]
    decreases |txs|
  {
    ids := [];
    if txs != {} {
      var t :| t in txs;
      var front := SomeList(txs - {t});
      ids := front + [t];
      forall u ensures u in txs <==> u in ids {
        assert u in ids <==> u in front || u == t;
      }
    }
  }

  function Budgets(sys: System, ids: seq<TxId>): (bs: seq<int>)
    requires Lists(ids, sys.txs)
  {
    seq(|ids|, i requires 0 <= i < |ids| => Budget(sys.db, sys.txs[ids[i]]))
  }

  // Statements that all transactions together have still to take, at the most.
  function TotalBudget(sys: System, ids: seq<TxId>): (n: nat)
    requires Lists(ids, sys.txs)
  {
    SumNonNegative(Budgets(sys, ids));
    Sum(Budgets(sys, ids))
  }

  // Carts keep their rows, and new ones have none.
  predicate SameRows(db: Db, db': Db) {
    (forall c :: c in db.carts ==> c in db'.carts && db'.carts[c].items == db.carts[c].items)
    && (forall c :: c in db'.carts && c !in db.carts ==> db'.carts[c].items == [])
  }

  lemma SameRowsSameBudget(db: Db, db': Db, tx: Tx)
    requires SameRows(db, db')
    ensures Budget(db', tx) == Budget(db, tx)
  {
  }

  // No transaction begins, and no cart's rows are changed.
  predicate NoNewWork(actions: seq<Action>) {
    forall i :: 0 <= i < |actions| ==> !actions[i].Begin? && !actions[i].EditCart?
  }

  lemma ActionKeepsRows(sys: System, a: Action)
    requires Legal(sys) && Next(sys, a).Some? && NoNewWork([a])
    ensures SameRows(sys.db, Next(sys, a).value.db)
  {
    assert [a][0] == a;
    if a.Advance? {
      OnlyCommitsWrite(sys.db, sys.txs[a.t], a.input);
    }
  }

  // A statement uses up some of the budget, and nothing else adds to it.
  lemma ActionSpends(sys: System, a: Action, ids: seq<TxId>)
    requires Legal(sys) && Next(sys, a).Some? && NoNewWork([a]) && Lists(ids, sys.txs)
    ensures Lists(ids, Next(sys, a).value.txs)
    ensures TotalBudget(Next(sys, a).value, ids) + (if a.Advance? then 1 else 0) <= TotalBudget(sys, ids)
  {
    var next := Next(sys, a).value;
    assert [a][0] == a;
    ActionKeepsRows(sys, a);
    forall t | t in sys.txs ensures Budget(next.db, sys.txs[t]) == Budget(sys.db, sys.txs[t]) {
      SameRowsSameBudget(sys.db, next.db, sys.txs[t]);
    }
    if a.Advance? {
      var i :| 0 <= i < |ids| && ids[i] == a.t;
      StepSpends(sys.db, sys.txs[a.t], a.input);
      assert Budgets(next, ids) == Budgets(sys, ids)[i := Budget(next.db, next.txs[a.t])];
      SumUpdate(Budgets(sys, ids), i, Budget(next.db, next.txs[a.t]));
    } else {
      assert Budgets(next, ids) == Budgets(sys, ids);
    }
  }

  predicate AllFinished(sys: System) {
    forall t :: t in sys.txs ==> sys.txs[t].pc.Finished?
  }

  // Statements only, none of which fails.
  predicate Uneventful(actions: seq<Action>) {
    forall i :: 0 <= i < |actions| ==>
      actions[i].Advance? && actions[i].input != Fail && actions[i].input != UniqueViolation
  }

  lemma NextUneventful(sys: System, ids: seq<TxId>, t: TxId) returns (a: Action, next: System)
    requires Unfinished(sys, t) && Lists(ids, sys.txs)
    ensures Uneventful([a]) && Next(sys, a) == Some(next) && SysInv(next)
    ensures Lists(ids, next.txs) && TotalBudget(next, ids) < TotalBudget(sys, ids)
  {
    var u := FollowWaits(sys, t, {});
    a := Advance(u, Reply(sys.txs[u]));
    next := Next(sys, a).value;
    StepKeepsInv(sys, a);
    ActionSpends(sys, a, ids);
  }

  lemma {:induction false} FinishFrom(sys: System, ids: seq<TxId>) returns (actions: seq<Action>)
    requires SysInv(sys) && Lists(ids, sys.txs)
    ensures Uneventful(actions) && Run(sys, actions).Some? && AllFinished(Run(sys, actions).value)
    decreases TotalBudget(sys, ids)
  {
    if t :| t in sys.txs && !sys.txs[t].pc.Finished? {
      var a, next := NextUneventful(sys, ids, t);
      var rest := FinishFrom(next, ids);
      RunStep(sys, a, next, rest);
      actions := [a] + rest;
      assert [a][0] == a;
    } else {
      actions := [];
    }
  }

  // From every reachable state some run of statements, none of which fails, finishes every
  // transaction in flight.
  lemma EveryoneCanFinish(sys: System, actions: seq<Action>) returns (more: seq<Action>)
    requires SysInv(sys) && Run(sys, actions).Some?
    ensures Legal(Run(sys, actions).value) && Uneventful(more)
    ensures
      var after := Run(Run(sys, actions).value, more);
      after.Some? && AllFinished(after.value)
  {
    RunKeepsInv(sys, actions);
    var ids := SomeList(Run(sys, actions).value.txs.Keys);
    more := FinishFrom(Run(sys, actions).value, ids);
  }

  function Statements(actions: seq<Action>): nat {
    if actions == [] then 0 else (if actions[0].Advance? then 1 else 0) + Statements(actions[1..])
  }

  lemma {:induction false} StatementsAreBounded(sys: System, actions: seq<Action>, ids: seq<TxId>)
    requires Legal(sys) && Run(sys, actions).Some? && NoNewWork(actions) && Lists(ids, sys.txs)
    ensures Lists(ids, Run(sys, actions).value.txs)
    ensures Statements(actions) + TotalBudget(Run(sys, actions).value, ids) <= TotalBudget(sys, ids)
    decreases |actions|
  {
    if actions != [] {
      assert NoNewWork([actions[0]]);
      NextKeepsLegal(sys, actions[0]);
      ActionSpends(sys, actions[0], ids);
      StatementsAreBounded(Next(sys, actions[0]).value, actions[1..], ids);
    }
  }

  // And every schedule finishes them: however their statements are ordered, whatever fails, and
  // whatever time and stock do in between, they take no more statements than the transactions
  // had to go, and as long as one is unfinished some statement can follow.
  lemma EveryScheduleFinishes(sys: System, actions: seq<Action>, ids: seq<TxId>)
    requires SysInv(sys) && Run(sys, actions).Some? && NoNewWork(actions) && Lists(ids, sys.txs)
    ensures Statements(actions) <= TotalBudget(sys, ids)
    ensures
      var after := Run(sys, actions).value;
      AllFinished(after) || exists u :: CanStep(after, u)
  {
    StatementsAreBounded(sys, actions, ids);
    var after := Run(sys, actions).value;
    if t :| t in after.txs && !after.txs[t].pc.Finished? {
      NoDeadlock(sys, actions, t);
    }
  }
}
