/**
 * Why checkouts never deadlock: every one locks user row, cart variants
 * ascending, promo row, products ascending, so the rows a checkout holds all
 * rank below the row it waits for (backend/internal/store/orders.go).
 */
module Deadlock {
  import opened Wrappers
  import opened Transactions
  import opened Sorting
  import opened Concurrency

  function Tier(r: Row): nat {
    match r
    case UserRow(_) => 0
    case VariantRow(_) => 1
    case PromoRow(_) => 2
    case ProductRow(_) => 3
  }

  /** The one order every checkout takes its locks in. */
  predicate Below(a: Row, b: Row) {
    Tier(a) < Tier(b) || (Tier(a) == Tier(b) && a.id < b.id)
  }

  ghost predicate WaitsFor(s: Sys, a: nat, b: nat) {
    && a in s.txns
    && a != b
    && var row := Wanted(s.db, s.txns[a]); row.Some? && row.value in s.owner && s.owner[row.value] == b
  }

  /** A closed walk: each waits for the next, and the last is the first again. */
  ghost predicate WaitCycle(s: Sys, walk: seq<nat>) {
    && |walk| > 1
    && walk[0] == walk[|walk| - 1]
    && forall i, j | 0 <= i && j == i + 1 && j < |walk| :: WaitsFor(s, walk[i], walk[j])
  }

  lemma LineBelowNext(db: Shop, t: Txn, held: Row)
    requires Keyed(db) && Current(db, t) && Holds(t, db, held) && t.phase == LockingVariants && Wanted(db, t).Some?
    ensures Below(held, Wanted(db, t).value)
  {
    ByVariantAscends(CartOf(db, t.req.user));
    if held.VariantRow? {
      var i :| 0 <= i < |t.views| && t.views[i].variant == held.id;
      assert t.views[i].variant == t.cart[i].variant;
    }
  }

  lemma CounterBelowNext(db: Shop, t: Txn, held: Row)
    requires Holds(t, db, held) && t.phase == LockingProducts && Wanted(db, t).Some?
    ensures Below(held, Wanted(db, t).value)
  {
    if t.order.Some? {
      ProductsOfAscends(db.catalog.productOf, t.order.value.items);
    }
  }

  /** Whatever a checkout holds ranks below whatever it asks for next. */
  lemma HeldBelowWanted(db: Shop, t: Txn, held: Row)
    requires Keyed(db) && Current(db, t) && Holds(t, db, held) && Wanted(db, t).Some?
    ensures Below(held, Wanted(db, t).value)
  {
    match t.phase {
      case LockingVariants => LineBelowNext(db, t, held);
      case LockingProducts => CounterBelowNext(db, t, held);
      case _ =>
    }
  }

  lemma OwnerRanksHigher(s: Sys, a: nat, b: nat)
    requires LocksSound(s) && WaitsFor(s, a, b)
    ensures b in s.txns && Active(s.txns[b])
    ensures Wanted(s.db, s.txns[b]).Some? ==>
              Below(Wanted(s.db, s.txns[a]).value, Wanted(s.db, s.txns[b]).value)
  {
    var row := Wanted(s.db, s.txns[a]).value;
    assert Holds(s.txns[b], s.db, row);
    if Wanted(s.db, s.txns[b]).Some? {
      HeldBelowWanted(s.db, s.txns[b], row);
    }
  }

  lemma {:induction false} ChainRises(rows: seq<Row>, k: nat)
    requires 0 < k < |rows|
    requires forall i, j | 0 <= i && j == i + 1 && j < |rows| :: Below(rows[i], rows[j])
    ensures Below(rows[0], rows[k])
  {
    assert Below(rows[k - 1], rows[k]);
    if k > 1 {
      ChainRises(rows, k - 1);
    }
  }

  lemma WalkWants(s: Sys, walk: seq<nat>, i: nat)
    requires WaitCycle(s, walk) && i < |walk|
    ensures walk[i] in s.txns && Wanted(s.db, s.txns[walk[i]]).Some?
  {
    assert WaitsFor(s, walk[0], walk[1]);
    if 0 < i < |walk| - 1 {
      assert WaitsFor(s, walk[i], walk[i + 1]);
    }
  }

  lemma NoWaitCycleHere(s: Sys, walk: seq<nat>)
    requires LocksSound(s)
    ensures !WaitCycle(s, walk)
  {
    if WaitCycle(s, walk) {
      forall i | 0 <= i < |walk|
        ensures walk[i] in s.txns && Wanted(s.db, s.txns[walk[i]]).Some?
      {
        WalkWants(s, walk, i);
      }
      var rows := seq(|walk|, i requires 0 <= i < |walk| => Wanted(s.db, s.txns[walk[i]]).value);
      forall i, j | 0 <= i && j == i + 1 && j < |walk|
        ensures Below(rows[i], rows[j])
      {
        OwnerRanksHigher(s, walk[i], walk[j]);
      }
      ChainRises(rows, |walk| - 1);
    }
  }

  /** Whatever the interleaving, no set of checkouts ever waits on itself in a circle. */
  lemma NoWaitCycle(db: Shop, reqs: map<nat, Request>, schedule: seq<nat>, walk: seq<nat>)
    requires Keyed(db)
    ensures !WaitCycle(Execute(Begin(db, reqs), schedule), walk)
  {
    ExecuteInv(db, reqs, schedule);
    NoWaitCycleHere(Execute(Begin(db, reqs), schedule), walk);
  }

  // ----- Somebody can always move -------------------------------------------------

  ghost function RowsAbove(s: Sys, r: Row): set<Row> {
    set x | x in s.owner && Below(r, x)
  }

  lemma FewerRowsAbove(s: Sys, row: Row, higher: Row)
    requires Below(row, higher) && higher in s.owner
    ensures |RowsAbove(s, higher)| < |RowsAbove(s, row)|
  {
    assert higher in RowsAbove(s, row) && higher !in RowsAbove(s, higher);
    SubsetSize(RowsAbove(s, higher), RowsAbove(s, row));
  }

  /** Following who waits for whom from any unfinished checkout ends at one that can move. */
  lemma {:induction false} FindRunner(s: Sys, id: nat) returns (runner: nat)
    requires LocksSound(s) && id in s.txns && s.txns[id].phase != Finished
    ensures CanStep(s, runner)
    decreases if Wanted(s.db, s.txns[id]).Some? then |RowsAbove(s, Wanted(s.db, s.txns[id]).value)| + 1 else 0
  {
    if !Blocked(s, id) {
      return id;
    }
    var row := Wanted(s.db, s.txns[id]).value;
    var next := s.owner[row];
    assert WaitsFor(s, id, next);
    OwnerRanksHigher(s, id, next);
    if Wanted(s.db, s.txns[next]).Some? && Blocked(s, next) {
      var higher := Wanted(s.db, s.txns[next]).value;
      FewerRowsAbove(s, row, higher);
      runner := FindRunner(s, next);
    } else {
      runner := next;
    }
  }

  // ----- Everybody can finish -------------------------------------------------------

  /** Stages still to pass. */
  function StagesLeft(p: Phase): nat {
    match p
    case Starting => 7
    case ReadingCart => 6
    case LockingVariants => 5
    case AskingPromo => 4
    case LockingPromo => 3
    case PricingBasket => 2
    case LockingProducts => 1
    case Finished => 0
  }

  /** Locks still to take within the present stage. */
  function LocksLeft(db: Shop, t: Txn): nat {
    match t.phase
    case LockingVariants => if |t.views| < |t.cart| then |t.cart| - |t.views| else 0
    case LockingProducts =>
      if |t.counters| < |Products(db, t)| then |Products(db, t)| - |t.counters| else 0
    case _ => 0
  }

  function Stages(s: Sys): nat -> int {
    (id: nat) => if id in s.txns then StagesLeft(s.txns[id].phase) else 0
  }

  function Locks(s: Sys): nat -> int {
    (id: nat) => if id in s.txns then LocksLeft(s.db, s.txns[id]) else 0
  }

  lemma SteppedAdvances(db: Shop, t: Txn)
    requires t.phase != Finished && Ending(db, t).None?
    requires t.phase == LockingProducts ==> t.order.Some?
    ensures
      var t' := Stepped(db, t);
      || StagesLeft(t'.phase) < StagesLeft(t.phase)
      || (StagesLeft(t'.phase) == StagesLeft(t.phase) && LocksLeft(db, t') < LocksLeft(db, t))
  {
  }

  lemma StepAt(s: Sys, id: nat)
    requires CanStep(s, id)
    ensures
      Step(s, id).txns == s.txns[id := if Ending(s.db, s.txns[id]).Some? then s.txns[id].(phase := Finished)
                                       else Stepped(s.db, s.txns[id])]
    ensures Step(s, id).db.catalog == s.db.catalog
  {
  }

  lemma LocksUseCatalog(db: Shop, db': Shop, t: Txn)
    requires db.catalog == db'.catalog
    ensures LocksLeft(db, t) == LocksLeft(db', t)
  {
  }

  lemma LocksIgnoreCommits(s: Sys, id: nat, other: nat)
    requires CanStep(s, id) && other in s.txns && other != id
    ensures Stages(Step(s, id))(other) == Stages(s)(other)
    ensures Locks(Step(s, id))(other) == Locks(s)(other)
  {
    StepAt(s, id);
    LocksUseCatalog(s.db, Step(s, id).db, s.txns[other]);
  }

  lemma OwnStepAdvances(s: Sys, id: nat)
    requires CanStep(s, id) && (s.txns[id].phase == LockingProducts ==> s.txns[id].order.Some?)
    ensures
      || Stages(Step(s, id))(id) < Stages(s)(id)
      || (Stages(Step(s, id))(id) == Stages(s)(id) && Locks(Step(s, id))(id) < Locks(s)(id))
  {
    StepAt(s, id);
    if Ending(s.db, s.txns[id]).None? {
      SteppedAdvances(s.db, s.txns[id]);
      LocksUseCatalog(s.db, Step(s, id).db, Stepped(s.db, s.txns[id]));
    }
  }

  lemma SumDrops(ids: set<nat>, id: nat, f: nat -> int, f': nat -> int, g: nat -> int, g': nat -> int)
    requires id in ids
    requires forall other | other in ids && other != id :: f'(other) == f(other) && g'(other) == g(other)
    requires f'(id) < f(id) || (f'(id) == f(id) && g'(id) < g(id))
    ensures SumOver(ids, f') < SumOver(ids, f)
            || (SumOver(ids, f') == SumOver(ids, f) && SumOver(ids, g') < SumOver(ids, g))
  {
    SumOverPick(ids, f, id);
    SumOverPick(ids, f', id);
    SumOverPick(ids, g, id);
    SumOverPick(ids, g', id);
    SumOverSame(ids - {id}, f, f');
    SumOverSame(ids - {id}, g, g');
  }

  /** Each step that is not a wait passes a stage, or takes one of the stage's locks. */
  lemma StepAdvances(s: Sys, id: nat)
    requires CanStep(s, id) && (s.txns[id].phase == LockingProducts ==> s.txns[id].order.Some?)
    ensures Step(s, id).txns.Keys == s.txns.Keys
    ensures
      var ids := s.txns.Keys; var s' := Step(s, id);
      || SumOver(ids, Stages(s')) < SumOver(ids, Stages(s))
      || (SumOver(ids, Stages(s')) == SumOver(ids, Stages(s)) && SumOver(ids, Locks(s')) < SumOver(ids, Locks(s)))
  {
    NobodyLeaves(s, id);
    OwnStepAdvances(s, id);
    OthersStandStill(s, id);
    SumDrops(s.txns.Keys, id, Stages(s), Stages(Step(s, id)), Locks(s), Locks(Step(s, id)));
  }

  lemma NobodyLeaves(s: Sys, id: nat)
    requires CanStep(s, id)
    ensures Step(s, id).txns.Keys == s.txns.Keys
  {
    StepAt(s, id);
  }

  lemma OthersStandStill(s: Sys, id: nat)
    requires CanStep(s, id)
    ensures forall other | other in s.txns && other != id ::
              Stages(Step(s, id))(other) == Stages(s)(other) && Locks(Step(s, id))(other) == Locks(s)(other)
  {
    forall other | other in s.txns && other != id
      ensures Stages(Step(s, id))(other) == Stages(s)(other) && Locks(Step(s, id))(other) == Locks(s)(other)
    {
      LocksIgnoreCommits(s, id, other);
    }
  }

  ghost predicate AllFinished(s: Sys) {
    forall id | id in s.txns :: s.txns[id].phase == Finished
  }

  lemma {:induction false} ExecuteFrom(s: Sys, id: nat, rest: seq<nat>)
    ensures Execute(s, [id] + rest) == Execute(Step(s, id), rest)
  {
    if rest == [] {
      assert [id] + rest == [id] && [id][..0] == [];
    } else {
      var front := rest[..|rest| - 1];
      ExecuteFrom(s, id, front);
      assert ([id] + rest)[..|rest|] == [id] + front;
    }
  }

  ghost predicate Advances(s: Sys, s': Sys) {
    var ids, ids' := s.txns.Keys, s'.txns.Keys;
    || SumOver(ids', Stages(s')) < SumOver(ids, Stages(s))
    || (SumOver(ids', Stages(s')) == SumOver(ids, Stages(s)) && SumOver(ids', Locks(s')) < SumOver(ids, Locks(s)))
  }

  lemma OrderKnown(db: Shop, t: Txn)
    requires Current(db, t)
    ensures t.phase == LockingProducts ==> t.order.Some?
  {
  }

  lemma RunnerAdvances(s: Sys, runner: nat)
    requires AllCurrent(s.db, s.txns) && CanStep(s, runner)
    ensures Advances(s, Step(s, runner))
  {
    OrderKnown(s.db, s.txns[runner]);
    StepAdvances(s, runner);
  }

  lemma PickRunner(s: Sys, db0: Shop, id: nat) returns (runner: nat)
    requires SerialSoFar(s, db0) && id in s.txns && s.txns[id].phase != Finished
    ensures SerialSoFar(Step(s, runner), db0) && Advances(s, Step(s, runner))
  {
    runner := FindRunner(s, id);
    RunnerAdvances(s, runner);
    StepInv(s, db0, runner);
  }

  lemma {:induction false} Drive(s: Sys, db0: Shop) returns (more: seq<nat>)
    requires SerialSoFar(s, db0)
    ensures AllFinished(Execute(s, more))
    decreases SumOver(s.txns.Keys, Stages(s)), SumOver(s.txns.Keys, Locks(s))
  {
    SumOverNonNegative(s.txns.Keys, Stages(s));
    SumOverNonNegative(s.txns.Keys, Locks(s));
    if id :| id in s.txns && s.txns[id].phase != Finished {
      var runner := PickRunner(s, db0, id);
      var rest := Drive(Step(s, runner), db0);
      ExecuteFrom(s, runner, rest);
      more := [runner] + rest;
    } else {
      more := [];
    }
  }

  lemma {:induction false} ExecuteConcat(s: Sys, first: seq<nat>, more: seq<nat>)
    ensures Execute(s, first + more) == Execute(Execute(s, first), more)
  {
    if more == [] {
      assert first + more == first;
    } else {
      var front := more[..|more| - 1];
      ExecuteConcat(s, first, front);
      assert (first + more)[..|first + more| - 1] == first + front;
    }
  }

  /** From any point of any interleaving, every checkout can still run to its end. */
  lemma EverybodyCanFinish(db: Shop, reqs: map<nat, Request>, schedule: seq<nat>)
    requires Keyed(db)
    ensures exists more :: AllFinished(Execute(Begin(db, reqs), schedule + more))
  {
    ExecuteInv(db, reqs, schedule);
    var more := Drive(Execute(Begin(db, reqs), schedule), db);
    ExecuteConcat(Begin(db, reqs), schedule, more);
  }
}
