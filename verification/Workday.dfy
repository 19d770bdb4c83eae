/**
 * Checkouts step by step, and everything else the shop does in between:
 * cancellations and other status changes, payments, stock counts, edits of codes,
 * prices and carts, account deletions. Each of those is one step that waits while
 * an open checkout holds a row it has to lock (backend/internal/store/orders.go,
 * promos.go, products_admin.go, users.go).
 *
 * The books are sound at every instant, and a cap is broken at exactly two kinds
 * of moment.
 */
module Workday {
  import opened Wrappers
  import opened Lifecycle
  import opened Transactions
  import opened Sorting
  import opened Ledger
  import History
  import opened Concurrency
  import CapRace

  // ----- What happens in a day ------------------------------------------------------------

  /** The next step of a checkout, or another transaction as a whole. */
  datatype Event = Turn(id: nat) | Other(op: Op)

  predicate ItemsFree(owner: map<Row, nat>, items: seq<Item>) {
    forall k | 0 <= k < |items| :: VariantRow(items[k].variant) !in owner
  }

  /** The shelf rows a cancellation gives back to, a recounted shelf row, an edited code, a deleted customer. */
  predicate Unlocked(s: Sys, op: Op) {
    match op
    case Advance(id, to) => to == Cancelled && id < |s.db.orders| ==> ItemsFree(s.owner, s.db.orders[id].items)
    case CustomerCancel(_, id) => id < |s.db.orders| ==> ItemsFree(s.owner, s.db.orders[id].items)
    case Shelve(variant, _) => VariantRow(variant) !in s.owner
    case EditPromo(code, _) => PromoRow(code) !in s.owner
    case CloseAccount(user) => UserRow(user) !in s.owner
    case _ => true
  }

  /** Checkouts take turns; anything else happens at once, or waits. */
  function Happen(s: Sys, e: Event): Sys {
    match e
    case Turn(id) => Step(s, id)
    case Other(op) => if op.Checkout? || !Unlocked(s, op) then s else s.(db := Apply(s.db, op).shop)
  }

  function HappenAll(s: Sys, events: seq<Event>): Sys {
    if events == [] then s else Happen(HappenAll(s, events[..|events| - 1]), events[|events| - 1])
  }

  /** A stretch of one event is that event. */
  lemma HappenOne(s: Sys, e: Event)
    ensures HappenAll(s, [e]) == Happen(s, e)
  {
    assert [e][..0] == [];
    assert HappenAll(s, []) == s;
  }

  /** And any stretch is whatever comes first followed by the rest. */
  lemma {:induction false} HappenInTwo(s: Sys, first: seq<Event>, rest: seq<Event>)
    ensures HappenAll(s, first + rest) == HappenAll(HappenAll(s, first), rest)
  {
    if rest == [] {
      assert first + rest == first;
    } else {
      HappenInTwo(s, first, rest[..|rest| - 1]);
      assert (first + rest)[..|first + rest| - 1] == first + rest[..|rest| - 1];
    }
  }

  predicate HasItem(items: seq<Item>, v: nat) {
    exists k | 0 <= k < |items| :: items[k].variant == v
  }

  /** The operation is about this very row. */
  predicate Touches(s: Sys, op: Op, row: Row) {
    match row
    case VariantRow(v) =>
      || (op.Shelve? && op.variant == v)
      || (((op.Advance? && op.to == Cancelled) || op.CustomerCancel?)
          && op.id < |s.db.orders| && HasItem(s.db.orders[op.id].items, v))
    case PromoRow(code) => op.EditPromo? && op.code == code
    case UserRow(user) => op.CloseAccount? && op.user == user
    case ProductRow(_) => false
  }

  /** A transaction waits while a checkout holds a row it is about, and else happens as a whole. */
  lemma WaitsForItsRows(s: Sys, op: Op)
    requires !op.Checkout?
    ensures
      var waits := exists row :: row in s.owner && Touches(s, op, row);
      Happen(s, Other(op)) == if waits then s else s.(db := Apply(s.db, op).shop)
  {
    if row :| row in s.owner && Touches(s, op, row) {
      assert !Unlocked(s, op);
    }
    if !Unlocked(s, op) {
      HeldRow(s, op);
    }
  }

  lemma HeldRow(s: Sys, op: Op)
    requires !Unlocked(s, op)
    ensures exists row :: row in s.owner && Touches(s, op, row)
  {
    if op.Shelve? {
      assert Touches(s, op, VariantRow(op.variant));
    } else if op.EditPromo? {
      assert Touches(s, op, PromoRow(op.code));
    } else if op.CloseAccount? {
      assert Touches(s, op, UserRow(op.user));
    } else {
      var items := s.db.orders[op.id].items;
      var k :| 0 <= k < |items| && VariantRow(items[k].variant) in s.owner;
      assert Touches(s, op, VariantRow(items[k].variant));
    }
  }

  // ----- What still stands of what a checkout has read ----------------------------------------

  /** The lines it looked at, sound and in lock order, whatever has become of the cart since. */
  ghost predicate CartStands(db: Shop, t: Txn) {
    && (forall i, j | 0 <= i < j < |t.cart| :: t.cart[i].variant < t.cart[j].variant)
    && (forall i | 0 <= i < |t.cart| :: t.cart[i].variant in db.stock && t.cart[i].qty > 0)
  }

  /** Stock is as it was read under the lock. Prices and flags need not be. */
  ghost predicate ViewsStand(db: Shop, t: Txn) {
    && |t.views| <= |t.cart|
    && forall i | 0 <= i < |t.views| ::
         && t.views[i].variant == t.cart[i].variant && t.views[i].qty == t.cart[i].qty
         && t.views[i].stock == At(db.stock, t.views[i].variant)
  }

  ghost predicate LinesStand(db: Shop, t: Txn) {
    CartStands(db, t) && ViewsStand(db, t)
  }

  ghost predicate AllStand(db: Shop, t: Txn) {
    LinesStand(db, t) && |t.views| == |t.cart| && FirstProblem(t.views).None?
  }

  /** The code it has locked has the cap it had, and what it saw of the redemptions is what it goes by. */
  ghost predicate CodeStands(db: Shop, t: Txn) {
    t.promo.Some? ==>
      && t.promo.value.id in db.promos
      && t.promo.value.maxRedemptions == db.promos[t.promo.value.id].maxRedemptions
      && t.promo.value.redemptions == t.saw
  }

  /** The order it is about to write. The customer may have fewer orders by now than it was priced with. */
  ghost predicate OrderStands(db: Shop, t: Txn) {
    && t.order.Some?
    && var o := t.order.value;
       && o.user == Some(t.req.user) && o.status == Pending && o.payment == Unpaid && o.events == [Pending]
       && o.items == ItemsOf(t.views)
       && o.promo == (if t.promo.Some? then Some(t.promo.value.id) else None)
       && PriorOrders(db, t.req.user) <= o.prior && PerkSound(o)
  }

  /** It was judged when it had counted one to spare. */
  ghost predicate HadOneToSpare(t: Txn) {
    t.promo.Some? && t.promo.value.maxRedemptions.Some? ==> t.saw < t.promo.value.maxRedemptions.value
  }

  ghost predicate Stands(db: Shop, t: Txn) {
    && Shaped(t)
    && match t.phase
       case Starting => true
       case ReadingCart => true
       case LockingVariants => LinesStand(db, t)
       case AskingPromo => AllStand(db, t)
       case LockingPromo => AllStand(db, t)
       case PricingBasket => AllStand(db, t) && CodeStands(db, t)
       case LockingProducts =>
         && AllStand(db, t) && CodeStands(db, t) && OrderStands(db, t) && HadOneToSpare(t)
         && CountersCurrent(db, Products(db, t), t.counters)
       case Finished => true
  }

  ghost predicate DaySound(s: Sys) {
    && BooksSound(s.db)
    && (forall id | id in s.txns :: Stands(s.db, s.txns[id]))
    && OwnersSound(s.db, s.txns, s.owner)
  }

  // ----- A step that commits nothing ---------------------------------------------------------------

  lemma CartIsRead(db: Shop, t: Txn)
    requires CartsSound(db) && Shaped(t) && t.phase == ReadingCart
    ensures Stands(db, Stepped(db, t))
  {
    var cart := CartOf(db, t.req.user);
    var sorted := ByVariant(cart);
    ByVariantAscends(cart);
    forall i | 0 <= i < |sorted|
      ensures sorted[i].variant in db.stock && sorted[i].qty > 0
    {
      assert sorted[i] in cart;
    }
  }

  lemma LineIsRead(db: Shop, t: Txn)
    requires Stands(db, t) && t.phase == LockingVariants && Ending(db, t).None?
    ensures Stands(db, Stepped(db, t))
  {
  }

  lemma CodeIsLocked(db: Shop, t: Txn)
    requires Stands(db, t) && t.phase == LockingPromo
    ensures Stands(db, Stepped(db, t))
  {
  }

  lemma OrderIsJudged(db: Shop, t: Txn)
    requires Stands(db, t) && t.phase == PricingBasket && Ending(db, t).None?
    ensures Stands(db, Stepped(db, t))
  {
    NoneLive(db.orders, t.req.user);
    var v := ViewSoFar(db, t);
    DecidedOrder(v, t.req, Decide(v, t.req).value);
  }

  lemma ProductIsLocked(db: Shop, t: Txn)
    requires Stands(db, t) && t.phase == LockingProducts && Ending(db, t).None?
    ensures Stands(db, Stepped(db, t))
  {
  }

  lemma StepStands(db: Shop, t: Txn)
    requires CartsSound(db) && Stands(db, t) && t.phase != Finished && Ending(db, t).None?
    ensures Stands(db, Stepped(db, t))
  {
    match t.phase {
      case ReadingCart => CartIsRead(db, t);
      case LockingVariants => LineIsRead(db, t);
      case LockingPromo => CodeIsLocked(db, t);
      case PricingBasket => OrderIsJudged(db, t);
      case LockingProducts => ProductIsLocked(db, t);
      case _ =>
    }
  }

  lemma GrantKeepsDay(s: Sys, id: nat)
    requires DaySound(s) && CanStep(s, id) && Ending(s.db, s.txns[id]).None?
    ensures DaySound(Grant(s, id))
  {
    var t, t' := s.txns[id], Stepped(s.db, s.txns[id]);
    forall r
      ensures Holds(t', s.db, r) <==> Holds(t, s.db, r) || Wanted(s.db, t) == Some(r)
    {
      SteppedTakesWanted(s.db, t, r);
    }
    StepStands(s.db, t);
    OwnersAfterGrant(s.db, s.txns, s.owner, id, t', Wanted(s.db, t));
  }

  // ----- A commit ------------------------------------------------------------------------------------

  /** It has everything it needs and is about to commit. */
  ghost predicate Committing(db: Shop, t: Txn) {
    Stands(db, t) && t.phase == LockingProducts && |t.counters| == |Products(db, t)|
  }

  lemma ViewsAscend(db: Shop, t: Txn)
    requires AllStand(db, t)
    ensures forall i, j | 0 <= i < j < |t.views| :: t.views[i].variant < t.views[j].variant
    ensures forall i | 0 <= i < |t.views| ::
              && t.views[i].variant in db.stock && t.views[i].qty > 0
              && t.views[i].stock == db.stock[t.views[i].variant]
  {
  }

  lemma CommitPublishes(db: Shop, t: Txn)
    requires Committing(db, t)
    ensures Written(db, t) == Publish(db, t.req.user, t.order.value)
  {
    var o := t.order.value;
    ViewsAscend(db, t);
    StockIsPublished(db, t.views);
    SalesArePublished(db, o.items, t.counters);
    BuffersPublish(db, t.req.user, o, BufferedStock(db, t.views), BufferedSales(db, o.items, t.counters));
  }

  lemma ItemsAreSound(db: Shop, t: Txn)
    requires AllStand(db, t)
    ensures ItemsSound(ItemsOf(t.views), db.stock)
  {
    ViewsAscend(db, t);
  }

  lemma CommitIsFit(db: Shop, t: Txn)
    requires Committing(db, t) && Conserved(db)
    ensures Publishable(db, t.req.user, t.order.value)
  {
    ViewsAscend(db, t);
    ItemsAreSound(db, t);
    forall w | w in db.stock
      ensures QtyOf(ItemsOf(t.views), w) <= db.stock[w]
    {
      OrderedFits(t.views, db.stock, w);
    }
  }

  lemma StockApart(db: Shop, user: nat, o: Order, t: Txn, i: nat)
    requires Active(t) && Apart(db, user, o, t) && i < |t.views|
    ensures At(Publish(db, user, o).stock, t.views[i].variant) == At(db.stock, t.views[i].variant)
  {
    forall k | 0 <= k < |o.items|
      ensures o.items[k].variant != t.views[i].variant
    {
      assert !Holds(t, db, VariantRow(o.items[k].variant));
    }
    QtyOfAbsent(o.items, t.views[i].variant);
  }

  lemma LinesApart(db: Shop, user: nat, o: Order, t: Txn)
    requires Active(t) && Apart(db, user, o, t) && LinesStand(db, t)
    ensures LinesStand(Publish(db, user, o), t)
  {
    forall i | 0 <= i < |t.views|
      ensures At(Publish(db, user, o).stock, t.views[i].variant) == At(db.stock, t.views[i].variant)
    {
      StockApart(db, user, o, t, i);
    }
  }

  /** Another checkout's commit leaves standing what an open one has read. */
  lemma CommitLeavesStanding(db: Shop, user: nat, o: Order, t: Txn)
    requires Stands(db, t) && (Active(t) ==> Apart(db, user, o, t) && o.user == Some(user))
    ensures Stands(Publish(db, user, o), t)
  {
    if Active(t) && t.phase != ReadingCart {
      LinesApart(db, user, o, t);
      PriorOrdersFrame(db, user, o, t.req.user);
      if t.phase == LockingProducts {
        CountersApart(db, user, o, t);
      }
    }
  }

  lemma CommittingHolds(db: Shop, t: Txn)
    requires Committing(db, t)
    ensures
      var o := t.order.value;
      && Holds(t, db, UserRow(t.req.user))
      && (forall i | 0 <= i < |o.items| :: Holds(t, db, VariantRow(o.items[i].variant)))
      && (forall p | p in ProductsOf(db.catalog.productOf, o.items) :: Holds(t, db, ProductRow(p)))
  {
    ItemsHeld(db, t, t.order.value.items);
  }

  lemma CommitLeavesOther(s: Sys, id: nat, other: nat)
    requires DaySound(s) && id in s.txns && other in s.txns && other != id && Committing(s.db, s.txns[id])
    ensures Stands(Written(s.db, s.txns[id]), s.txns[other])
    ensures forall r :: Holds(s.txns[other], Written(s.db, s.txns[id]), r) <==> Holds(s.txns[other], s.db, r)
  {
    var t := s.txns[id];
    var user, o := t.req.user, t.order.value;
    CommitPublishes(s.db, t);
    CommittingHolds(s.db, t);
    if Active(s.txns[other]) {
      OthersApart(s, id, other, o);
    }
    CommitLeavesStanding(s.db, user, o, s.txns[other]);
    forall r
      ensures Holds(s.txns[other], Written(s.db, t), r) <==> Holds(s.txns[other], s.db, r)
    {
      HoldsIgnoresCommits(s.db, Written(s.db, t), s.txns[other], r);
    }
  }

  lemma CommitKeepsBooks(db: Shop, t: Txn)
    requires BooksSound(db) && Committing(db, t) && !Conflicts(db, t.req.user, t.order.value)
    ensures BooksSound(Written(db, t))
  {
    CommitPublishes(db, t);
    CommitIsFit(db, t);
    PublishKeeps(db, t.req.user, t.order.value);
  }

  lemma CommitKeepsOwners(s: Sys, id: nat)
    requires DaySound(s) && id in s.txns && Committing(s.db, s.txns[id])
    ensures OwnersSound(Written(s.db, s.txns[id]), s.txns[id := s.txns[id].(phase := Finished)], Released(s.owner, id))
  {
    var db' := Written(s.db, s.txns[id]);
    forall other, r | other in s.txns && other != id
      ensures Holds(s.txns[other], db', r) <==> Holds(s.txns[other], s.db, r)
    {
      CommitLeavesOther(s, id, other);
    }
    OwnersAfterRelease(s.db, db', s.txns, s.owner, id, s.txns[id].(phase := Finished));
  }

  lemma CommitKeepsStanding(s: Sys, id: nat)
    requires DaySound(s) && id in s.txns && Committing(s.db, s.txns[id])
    ensures forall other | other in s.txns && other != id :: Stands(Written(s.db, s.txns[id]), s.txns[other])
  {
    forall other | other in s.txns && other != id
      ensures Stands(Written(s.db, s.txns[id]), s.txns[other])
    {
      CommitLeavesOther(s, id, other);
    }
  }

  lemma PlacedIsCommitting(db: Shop, t: Txn)
    requires Stands(db, t) && Ending(db, t).Some? && Ending(db, t).value.Placed?
    ensures Committing(db, t) && !Conflicts(db, t.req.user, t.order.value)
  {
  }

  lemma DayAfterFinish(db: Shop, txns: map<nat, Txn>, owner: map<Row, nat>, log: seq<Entry>, id: nat, t: Txn)
    requires BooksSound(db) && OwnersSound(db, txns[id := t], owner) && t.phase == Finished
    requires forall other | other in txns && other != id :: Stands(db, txns[other])
    ensures DaySound(Sys(db, txns[id := t], owner, log))
  {
    assert Stands(db, t);
  }

  lemma CommitKeepsDay(s: Sys, id: nat, reply: Reply)
    requires DaySound(s) && CanStep(s, id) && Ending(s.db, s.txns[id]) == Some(reply) && reply.Placed?
    ensures DaySound(Finish(s, id, reply))
  {
    PlacedIsCommitting(s.db, s.txns[id]);
    CommitKeepsBooks(s.db, s.txns[id]);
    CommitKeepsStanding(s, id);
    CommitKeepsOwners(s, id);
    var t := s.txns[id].(phase := Finished);
    DayAfterFinish(Written(s.db, s.txns[id]), s.txns, Released(s.owner, id), Finish(s, id, reply).log, id, t);
  }

  lemma RefusalKeepsDay(s: Sys, id: nat, reply: Reply)
    requires DaySound(s) && CanStep(s, id) && Ending(s.db, s.txns[id]) == Some(reply) && !reply.Placed?
    ensures DaySound(Finish(s, id, reply))
  {
    var t := s.txns[id].(phase := Finished);
    OwnersAfterRelease(s.db, s.db, s.txns, s.owner, id, t);
    DayAfterFinish(s.db, s.txns, Released(s.owner, id), Finish(s, id, reply).log, id, t);
  }

  lemma TurnKeepsDay(s: Sys, id: nat)
    requires DaySound(s)
    ensures DaySound(Step(s, id))
  {
    if CanStep(s, id) {
      var end := Ending(s.db, s.txns[id]);
      if end.None? {
        GrantKeepsDay(s, id);
      } else if end.value.Placed? {
        CommitKeepsDay(s, id, end.value);
      } else {
        RefusalKeepsDay(s, id, end.value);
      }
    }
  }

  // ----- Another transaction ---------------------------------------------------------------------------

  /** What no transaction but a checkout ever does to the rows an open checkout relies on. */
  ghost predicate Harmless(db: Shop, db': Shop) {
    && db'.catalog.productOf == db.catalog.productOf && db'.sales == db.sales
    && db'.stock.Keys == db.stock.Keys
    && forall u :: PriorOrders(db', u) <= PriorOrders(db, u)
  }

  lemma StatusIsHarmless(db: Shop, id: nat, to: Status)
    requires id < |db.orders| && ValidTransition(db.orders[id].status, to)
    ensures Harmless(db, WithStatus(db, id, to))
  {
    forall u
      ensures PriorOrders(WithStatus(db, id, to), u) <= PriorOrders(db, u)
    {
      TallyUpdate(db.orders, id, Advanced(db.orders[id], to), LiveOf(u));
    }
  }

  lemma PaymentIsHarmless(db: Shop, id: nat, to: PaymentStatus)
    requires id < |db.orders|
    ensures Harmless(db, db.(orders := db.orders[id := db.orders[id].(payment := to)]))
  {
    forall u
      ensures PriorOrders(db.(orders := db.orders[id := db.orders[id].(payment := to)]), u) == PriorOrders(db, u)
    {
      TallyUpdate(db.orders, id, db.orders[id].(payment := to), LiveOf(u));
    }
  }

  lemma {:induction false} DetachedTally(orders: seq<Order>, detached: seq<Order>, user: nat, u: nat)
    requires |detached| == |orders| && forall i | 0 <= i < |orders| :: detached[i] == Detached(orders[i], user)
    ensures Tally(detached, LiveOf(u)) <= Tally(orders, LiveOf(u))
  {
    if orders != [] {
      DetachedTally(orders[..|orders| - 1], detached[..|orders| - 1], user, u);
    }
  }

  lemma DeletionIsHarmless(db: Shop, user: nat)
    ensures Harmless(db, DeleteAccount(db, user).shop)
  {
    forall u
      ensures PriorOrders(DeleteAccount(db, user).shop, u) <= PriorOrders(db, u)
    {
      DetachedTally(db.orders, DetachAll(db.orders, user), user, u);
    }
  }

  lemma OrderOpIsHarmless(db: Shop, op: Op)
    requires OrderOp(op) && !op.Checkout?
    ensures Harmless(db, Apply(db, op).shop)
  {
    match op {
      case Advance(id, to) =>
        if id < |db.orders| && ValidTransition(db.orders[id].status, to) {
          StatusIsHarmless(db, id, to);
        }
      case CustomerCancel(_, id) =>
        if id < |db.orders| && CustomerMayCancel(db.orders[id].status) {
          StatusIsHarmless(db, id, Cancelled);
        }
      case Pay(id, payment) =>
        if id < |db.orders| {
          PaymentIsHarmless(db, id, payment);
        }
      case CloseAccount(user) => DeletionIsHarmless(db, user);
    }
  }

  lemma OtherIsHarmless(db: Shop, op: Op)
    requires !op.Checkout?
    ensures Harmless(db, Apply(db, op).shop)
  {
    if OrderOp(op) {
      OrderOpIsHarmless(db, op);
    } else {
      History.ShelfOpShape(db, op);
      OthersKeepKeys(db, op);
    }
  }

  lemma OthersKeepKeys(db: Shop, op: Op)
    requires !OrderOp(op)
    ensures Apply(db, op).shop.stock.Keys == db.stock.Keys
  {
    if op.PutInCart? || op.TakeFromCart? || op.Again? {
      History.CartOpShape(db, op);
    } else if !op.Shelve? && !op.Reprice? {
      History.CodeOpShape(db, op);
    }
  }

  lemma StatusSparesShelf(s: Sys, id: nat, to: Status, v: nat)
    requires id < |s.db.orders| && (to == Cancelled ==> ItemsFree(s.owner, s.db.orders[id].items))
    requires VariantRow(v) in s.owner
    ensures At(WithStatus(s.db, id, to).stock, v) == At(s.db.stock, v)
  {
    if to == Cancelled {
      QtyOfAbsent(s.db.orders[id].items, v);
    }
  }

  /** A cancellation, or a recount, does not touch a shelf row that a checkout has locked. */
  lemma OtherSparesShelf(s: Sys, op: Op, v: nat)
    requires !op.Checkout? && Unlocked(s, op) && VariantRow(v) in s.owner
    ensures At(Apply(s.db, op).shop.stock, v) == At(s.db.stock, v)
  {
    match op {
      case Advance(id, to) =>
        if id < |s.db.orders| {
          StatusSparesShelf(s, id, to, v);
        }
      case CustomerCancel(_, id) =>
        if id < |s.db.orders| {
          StatusSparesShelf(s, id, Cancelled, v);
        }
      case Pay(id, payment) => History.PaymentShape(s.db, id, payment);
      case PutInCart(_, _, _) => History.CartOpShape(s.db, op);
      case TakeFromCart(_, _) => History.CartOpShape(s.db, op);
      case Again(_, _) => History.CartOpShape(s.db, op);
      case _ =>
    }
  }

  /** Nothing changes a code but an edit of that code. */
  lemma OtherSparesCode(db: Shop, op: Op, code: nat)
    requires !op.Checkout? && code in db.promos && (op.EditPromo? ==> op.code != code)
    ensures code in Apply(db, op).shop.promos && Apply(db, op).shop.promos[code] == db.promos[code]
  {
    if op.AddPromo? || op.EditPromo? {
      EditSparesCode(db, op, code);
    } else {
      History.OtherStepsShrink(db, op);
    }
  }

  lemma EditSparesCode(db: Shop, op: Op, code: nat)
    requires (op.AddPromo? || op.EditPromo?) && code in db.promos && (op.EditPromo? ==> op.code != code)
    ensures code in Apply(db, op).shop.promos && Apply(db, op).shop.promos[code] == db.promos[code]
  {
  }

  /** Tables in which nothing that an open checkout has locked, or counts on, has changed. */
  ghost predicate Spares(s: Sys, db': Shop) {
    && Harmless(s.db, db')
    && (forall v | VariantRow(v) in s.owner :: At(db'.stock, v) == At(s.db.stock, v))
    && (forall code | PromoRow(code) in s.owner && code in s.db.promos ::
          code in db'.promos && db'.promos[code] == s.db.promos[code])
  }

  lemma OtherSpares(s: Sys, op: Op)
    requires !op.Checkout? && Unlocked(s, op)
    ensures Spares(s, Apply(s.db, op).shop)
  {
    OtherIsHarmless(s.db, op);
    forall v | VariantRow(v) in s.owner
      ensures At(Apply(s.db, op).shop.stock, v) == At(s.db.stock, v)
    {
      OtherSparesShelf(s, op, v);
    }
    forall code | PromoRow(code) in s.owner && code in s.db.promos
      ensures code in Apply(s.db, op).shop.promos && Apply(s.db, op).shop.promos[code] == s.db.promos[code]
    {
      OtherSparesCode(s.db, op, code);
    }
  }

  lemma SparedLines(s: Sys, db': Shop, id: nat)
    requires Spares(s, db') && OwnersSound(s.db, s.txns, s.owner) && id in s.txns
    requires Active(s.txns[id]) && LinesStand(s.db, s.txns[id])
    ensures LinesStand(db', s.txns[id])
  {
    var t := s.txns[id];
    forall i | 0 <= i < |t.views|
      ensures At(db'.stock, t.views[i].variant) == At(s.db.stock, t.views[i].variant)
    {
      HolderOwns(s.db, s.txns, s.owner, id, VariantRow(t.views[i].variant));
    }
  }

  lemma SparedCode(s: Sys, db': Shop, id: nat)
    requires Spares(s, db') && OwnersSound(s.db, s.txns, s.owner) && id in s.txns
    requires Active(s.txns[id]) && CodeStands(s.db, s.txns[id])
    ensures CodeStands(db', s.txns[id])
  {
    if s.txns[id].promo.Some? {
      HolderOwns(s.db, s.txns, s.owner, id, PromoRow(s.txns[id].promo.value.id));
    }
  }

  lemma SparedOrder(db: Shop, db': Shop, t: Txn)
    requires Harmless(db, db') && OrderStands(db, t) && CountersCurrent(db, Products(db, t), t.counters)
    ensures OrderStands(db', t) && CountersCurrent(db', Products(db', t), t.counters)
  {
  }

  lemma SparedStands(s: Sys, db': Shop, id: nat)
    requires Spares(s, db') && OwnersSound(s.db, s.txns, s.owner) && id in s.txns && Stands(s.db, s.txns[id])
    ensures Stands(db', s.txns[id])
  {
    var t := s.txns[id];
    if Active(t) && t.phase != ReadingCart {
      SparedLines(s, db', id);
      if t.phase in {PricingBasket, LockingProducts} {
        SparedCode(s, db', id);
      }
      if t.phase == LockingProducts {
        SparedOrder(s.db, db', t);
      }
    }
  }

  lemma SparedOwners(db: Shop, db': Shop, txns: map<nat, Txn>, owner: map<Row, nat>)
    requires OwnersSound(db, txns, owner) && db'.catalog.productOf == db.catalog.productOf
    ensures OwnersSound(db', txns, owner)
  {
    forall id, r | id in txns
      ensures Holds(txns[id], db', r) <==> Holds(txns[id], db, r)
    {
      HoldsIgnoresCommits(db, db', txns[id], r);
    }
  }

  lemma SparedDay(s: Sys, db': Shop)
    requires DaySound(s) && Spares(s, db') && BooksSound(db')
    ensures DaySound(s.(db := db'))
  {
    SparedOwners(s.db, db', s.txns, s.owner);
    forall id | id in s.txns
      ensures Stands(db', s.txns[id])
    {
      SparedStands(s, db', id);
    }
  }

  lemma OtherKeepsDay(s: Sys, op: Op)
    requires !op.Checkout? && Unlocked(s, op) && DaySound(s)
    ensures DaySound(s.(db := Apply(s.db, op).shop))
  {
    ApplyKeeps(s.db, op);
    OtherSpares(s, op);
    SparedDay(s, Apply(s.db, op).shop);
  }

  // ----- Every day ------------------------------------------------------------------------------------------

  lemma HappenKeepsDay(s: Sys, e: Event)
    requires DaySound(s)
    ensures DaySound(Happen(s, e))
  {
    match e {
      case Turn(id) => TurnKeepsDay(s, id);
      case Other(op) =>
        if !op.Checkout? && Unlocked(s, op) {
          OtherKeepsDay(s, op);
        }
    }
  }

  lemma BeginsSound(db: Shop, reqs: map<nat, Request>)
    requires BooksSound(db)
    ensures DaySound(Begin(db, reqs))
  {
  }

  lemma {:induction false} DayIsSound(db: Shop, reqs: map<nat, Request>, events: seq<Event>)
    requires BooksSound(db)
    ensures DaySound(HappenAll(Begin(db, reqs), events))
  {
    if events == [] {
      BeginsSound(db, reqs);
    } else {
      var before := events[..|events| - 1];
      DayIsSound(db, reqs, before);
      HappenKeepsDay(HappenAll(Begin(db, reqs), before), events[|events| - 1]);
    }
  }

  /**
   * Whatever happens between the steps of any number of checkouts, at every instant stock is
   * conserved and not negative, redemption rows are exact, timelines lawful, perks given once.
   */
  lemma BooksAllDay(db: Shop, reqs: map<nat, Request>, events: seq<Event>)
    requires BooksSound(db)
    ensures BooksSound(HappenAll(Begin(db, reqs), events).db)
  {
    DayIsSound(db, reqs, events);
  }

  // ----- Caps -----------------------------------------------------------------------------------------------

  /** A checkout commits an order with the code, having counted one to spare, when the cap is reached. */
  ghost predicate Overdraws(s: Sys, id: nat, code: nat) {
    && CanStep(s, id) && Ending(s.db, s.txns[id]).Some? && Ending(s.db, s.txns[id]).value.Placed?
    && s.txns[id].order.Some? && s.txns[id].order.value.promo == Some(code)
    && code in s.db.promos && s.db.promos[code].maxRedemptions.Some?
    && s.txns[id].saw < s.db.promos[code].maxRedemptions.value <= |RedemptionsOf(s.db.redemptions, code)|
  }

  /** An edit of the rules goes through and sets the cap below the redemptions there are. */
  ghost predicate UndercutsNow(s: Sys, e: Event, code: nat) {
    e.Other? && Unlocked(s, e.op) && History.Undercuts(s.db, e.op, code)
  }

  lemma TurnRedeems(s: Sys, id: nat, code: nat)
    requires DaySound(s) && CanStep(s, id) && Ending(s.db, s.txns[id]).Some? && Ending(s.db, s.txns[id]).value.Placed?
    ensures Step(s, id).db.promos == s.db.promos && s.txns[id].order.Some?
    ensures |RedemptionsOf(Step(s, id).db.redemptions, code)| ==
            |RedemptionsOf(s.db.redemptions, code)| + if s.txns[id].order.value.promo == Some(code) then 1 else 0
  {
    var t := s.txns[id];
    PlacedIsCommitting(s.db, t);
    CommitPublishes(s.db, t);
    CapRace.OrderRedeems(s.db, t.req.user, t.order.value, code);
  }

  /** What it counted was within the cap, since the rules could not change while it held the code. */
  lemma CountedOneToSpare(s: Sys, id: nat, code: nat)
    requires DaySound(s) && CanStep(s, id) && Ending(s.db, s.txns[id]).Some? && Ending(s.db, s.txns[id]).value.Placed?
    requires s.txns[id].order.value.promo == Some(code)
    ensures code in s.db.promos
    ensures s.db.promos[code].maxRedemptions.Some? ==> s.txns[id].saw < s.db.promos[code].maxRedemptions.value
  {
    PlacedIsCommitting(s.db, s.txns[id]);
  }

  lemma TurnCapIff(s: Sys, id: nat, code: nat)
    requires DaySound(s) && History.CapHolds(s.db, code)
    ensures History.CapHolds(Step(s, id).db, code) <==> !Overdraws(s, id, code)
  {
    if CanStep(s, id) && Ending(s.db, s.txns[id]).Some? && Ending(s.db, s.txns[id]).value.Placed? {
      TurnRedeems(s, id, code);
      if s.txns[id].order.value.promo == Some(code) {
        CountedOneToSpare(s, id, code);
      }
    }
  }

  lemma OtherCapIff(s: Sys, op: Op, code: nat)
    requires DaySound(s) && History.CapHolds(s.db, code)
    ensures History.CapHolds(Happen(s, Other(op)).db, code) <==> !UndercutsNow(s, Other(op), code)
  {
    if !op.Checkout? && Unlocked(s, op) {
      History.CapStep(s.db, op, code);
    }
  }

  lemma CapMoment(s: Sys, e: Event, code: nat)
    requires DaySound(s) && History.CapHolds(s.db, code)
    ensures History.CapHolds(Happen(s, e).db, code) <==> !UndercutsNow(s, e, code) && !(e.Turn? && Overdraws(s, e.id, code))
  {
    match e {
      case Turn(id) => TurnCapIff(s, id, code);
      case Other(op) => OtherCapIff(s, op, code);
    }
  }

  /**
   * Exactly two kinds of moment break a cap: an edit that sets it below the redemptions there are, and a
   * commit with the code that had counted one to spare and finds the cap reached.
   */
  lemma CapAllDay(db: Shop, reqs: map<nat, Request>, events: seq<Event>, e: Event, code: nat)
    requires BooksSound(db) && History.CapHolds(HappenAll(Begin(db, reqs), events).db, code)
    ensures
      var s := HappenAll(Begin(db, reqs), events);
      History.CapHolds(Happen(s, e).db, code) <==> !UndercutsNow(s, e, code) && !(e.Turn? && Overdraws(s, e.id, code))
  {
    DayIsSound(db, reqs, events);
    CapMoment(HappenAll(Begin(db, reqs), events), e, code);
  }
}
