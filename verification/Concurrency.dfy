/**
 * Many checkouts at once. Each is a transaction that takes row locks one at a
 * time, reads under them, buffers what it will write, and publishes at commit;
 * locks are held to the end (backend/internal/store/orders.go, CreateOrder).
 *
 * A schedule says which transaction is offered the next step; a transaction
 * whose next row is locked by another waits. Every interleaving is a schedule.
 * A row's own columns are read after its lock is granted; the count of a code's
 * redemptions comes from the snapshot of the query that waits for the lock.
 */
module Concurrency {
  import opened Wrappers
  import opened Money
  import opened Pricing
  import opened Transactions
  import opened Sorting
  import Ledger

  datatype Row = UserRow(id: nat) | VariantRow(id: nat) | PromoRow(id: nat) | ProductRow(id: nat)

  datatype Phase =
    | Starting
    | ReadingCart
    | LockingVariants
    | AskingPromo
    | LockingPromo
    | PricingBasket
    | LockingProducts
    | Finished

  /**
   * What a checkout has read so far; `order` and `counters` are its buffered writes.
   * `saw` is how often its code had been redeemed when the locking query began.
   */
  datatype Txn = Txn(
    req: Request,
    phase: Phase,
    cart: seq<CartLine>,
    views: seq<LineView>,
    saw: nat,
    promo: Option<Promo>,
    order: Option<Order>,
    counters: seq<int>)

  datatype Entry = Entry(id: nat, req: Request, saw: nat, reply: Reply)

  /** The committed tables, the transactions, the lock table and the order of finishing. */
  datatype Sys = Sys(db: Shop, txns: map<nat, Txn>, owner: map<Row, nat>, log: seq<Entry>)

  // ----- A count that may be out of date --------------------------------------------

  /** How often the code on the customer's cart has been redeemed. */
  function Redeemed(db: Shop, user: nat): nat {
    if CartPromo(db, user).Some? then |RedemptionsOf(db.redemptions, db.cartPromo[user])| else 0
  }

  /** The code on the cart, with the redemptions as counted when the query began. */
  function PromoSeen(db: Shop, user: nat, saw: nat): Option<Promo> {
    match CartPromo(db, user)
    case None => None
    case Some(p) => Some(p.(redemptions := saw))
  }

  function ReadSeeing(db: Shop, req: Request, saw: nat): View {
    Read(db, req).(promo := PromoSeen(db, req.user, saw))
  }

  /** A checkout on these tables that goes by an earlier count of its code's redemptions. */
  function CreateSeeing(db: Shop, req: Request, saw: nat): Outcome {
    Settle(db, req, ReadSeeing(db, req, saw))
  }

  // ----- One transaction's next step --------------------------------------------

  function Products(db: Shop, t: Txn): seq<nat> {
    if t.order.Some? then ProductsOf(db.catalog.productOf, t.order.value.items) else []
  }

  /** The row the next step has to lock, if it locks one. */
  function Wanted(db: Shop, t: Txn): Option<Row> {
    match t.phase
    case Starting => Some(UserRow(t.req.user))
    case LockingVariants =>
      if |t.views| < |t.cart| then Some(VariantRow(t.cart[|t.views|].variant)) else None
    case LockingPromo =>
      if CartPromo(db, t.req.user).Some? then Some(PromoRow(CartPromo(db, t.req.user).value.id)) else None
    case LockingProducts =>
      if |t.counters| < |Products(db, t)| then Some(ProductRow(Products(db, t)[|t.counters|])) else None
    case _ => None
  }

  /** The checks made on the locked lines, before the promo is looked at. */
  function EarlyRefusal(views: seq<LineView>, rate: Option<ShippingRate>): Option<Refusal> {
    if views == [] then Some(EmptyCart)
    else if FirstProblem(views).Some? then FirstProblem(views)
    else if rate.None? then Some(NoShippingRate)
    else None
  }

  function ViewSoFar(db: Shop, t: Txn): View {
    View(t.views, RateIn(db.catalog, t.req.currency), t.promo, PriorOrders(db, t.req.user))
  }

  /** The reply, when the next step ends the transaction. */
  function Ending(db: Shop, t: Txn): Option<Reply> {
    match t.phase
    case LockingVariants =>
      if |t.views| < |t.cart| then None
      else
        var early := EarlyRefusal(t.views, RateIn(db.catalog, t.req.currency));
        if early.Some? then Some(Refused(early.value)) else None
    case PricingBasket =>
      var verdict := Decide(ViewSoFar(db, t), t.req);
      if verdict.Failure? then Some(Refused(verdict.error)) else None
    case LockingProducts =>
      if |t.counters| < |Products(db, t)| || t.order.None? then None
      else if Conflicts(db, t.req.user, t.order.value) then Some(Refused(RedemptionConflict))
      else Some(Placed(|db.orders|))
    case _ => None
  }

  /** The transaction after a step that does not end it. */
  function Stepped(db: Shop, t: Txn): Txn {
    match t.phase
    case Starting => t.(phase := ReadingCart)
    case ReadingCart => t.(phase := LockingVariants, cart := ByVariant(CartOf(db, t.req.user)))
    case LockingVariants =>
      if |t.views| < |t.cart| then t.(views := t.views + [ReadLine(db, t.cart[|t.views|], t.req.currency)])
      else t.(phase := AskingPromo)
    case AskingPromo => t.(phase := LockingPromo, saw := Redeemed(db, t.req.user))
    case LockingPromo => t.(phase := PricingBasket, promo := PromoSeen(db, t.req.user, t.saw))
    case PricingBasket =>
      var verdict := Decide(ViewSoFar(db, t), t.req);
      if verdict.Success? then t.(phase := LockingProducts, order := Some(verdict.value)) else t
    case LockingProducts =>
      if |t.counters| < |Products(db, t)| then
        t.(counters := t.counters + [At(db.sales, Products(db, t)[|t.counters|])])
      else t
    case Finished => t
  }

  // ----- Buffered writes ----------------------------------------------------------

  /** The stock a transaction will write: what it read under the lock, less what it takes. */
  function StockWritten(views: seq<LineView>, v: nat, otherwise: int): int {
    if views == [] then otherwise
    else
      var last := views[|views| - 1];
      if last.variant == v then last.stock - last.qty
      else StockWritten(views[..|views| - 1], v, otherwise)
  }

  /** The counter a transaction will write: what it read under the lock, plus what it sells. */
  function CounterWritten(products: seq<nat>, counters: seq<int>, sold: nat -> int, p: nat, otherwise: int): int
    requires |products| == |counters|
  {
    if products == [] then otherwise
    else
      var k := |products| - 1;
      if products[k] == p then counters[k] + sold(p)
      else CounterWritten(products[..k], counters[..k], sold, p, otherwise)
  }

  function SoldIn(items: seq<Item>, productOf: map<nat, nat>): nat -> int {
    (p: nat) => SoldOf(items, productOf, p)
  }

  function BufferedStock(db: Shop, views: seq<LineView>): map<nat, int> {
    map v | v in db.stock :: StockWritten(views, v, db.stock[v])
  }

  function BufferedSales(db: Shop, items: seq<Item>, counters: seq<int>): map<nat, int>
    requires |ProductsOf(db.catalog.productOf, items)| == |counters|
  {
    var ids, sold := ProductsOf(db.catalog.productOf, items), SoldIn(items, db.catalog.productOf);
    map p | p in db.sales :: CounterWritten(ids, counters, sold, p, db.sales[p])
  }

  /** Commit publishes the buffered figures, not fresh ones. */
  function Written(db: Shop, t: Txn): Shop {
    if t.order.None? || |Products(db, t)| != |t.counters| then db
    else
      var o := t.order.value;
      Publish(db, t.req.user, o).(stock := BufferedStock(db, t.views), sales := BufferedSales(db, o.items, t.counters))
  }

  // ----- The system -----------------------------------------------------------------

  predicate Blocked(s: Sys, id: nat)
    requires id in s.txns
  {
    var row := Wanted(s.db, s.txns[id]);
    row.Some? && row.value in s.owner && s.owner[row.value] != id
  }

  function Released(owner: map<Row, nat>, id: nat): map<Row, nat> {
    map r | r in owner && owner[r] != id :: owner[r]
  }

  function Finish(s: Sys, id: nat, reply: Reply): Sys
    requires id in s.txns
  {
    var t := s.txns[id];
    Sys(if reply.Placed? then Written(s.db, t) else s.db,
        s.txns[id := t.(phase := Finished)],
        Released(s.owner, id),
        s.log + [Entry(id, t.req, t.saw, reply)])
  }

  function Grant(s: Sys, id: nat): Sys
    requires id in s.txns
  {
    var t := s.txns[id];
    var row := Wanted(s.db, t);
    s.(txns := s.txns[id := Stepped(s.db, t)],
       owner := if row.Some? then s.owner[row.value := id] else s.owner)
  }

  function Step(s: Sys, id: nat): Sys {
    if id !in s.txns || s.txns[id].phase == Finished || Blocked(s, id) then s
    else
      var end := Ending(s.db, s.txns[id]);
      if end.Some? then Finish(s, id, end.value) else Grant(s, id)
  }

  function Begin(db: Shop, reqs: map<nat, Request>): Sys {
    Sys(db, map id | id in reqs :: Txn(reqs[id], Starting, [], [], 0, None, None, []), map[], [])
  }

  function Execute(s: Sys, schedule: seq<nat>): Sys {
    if schedule == [] then s else Step(Execute(s, schedule[..|schedule| - 1]), schedule[|schedule| - 1])
  }

  /** The same checkouts one after another in the order given, each going by the count it saw. */
  function Serial(db: Shop, log: seq<Entry>): Shop {
    if log == [] then db
    else
      var last := log[|log| - 1];
      CreateSeeing(Serial(db, log[..|log| - 1]), last.req, last.saw).shop
  }

  // ----- What is true of every transaction ------------------------------------------

  /** The primary keys the step model relies on: one cart line per variant, redemption rows of orders. */
  ghost predicate Keyed(db: Shop) {
    && (forall u | u in db.carts :: UniqueCart(db.carts[u]))
    && (forall i | i in db.redemptions :: i < |db.orders|)
  }

  predicate Active(t: Txn) {
    t.phase != Starting && t.phase != Finished
  }

  ghost predicate Holds(t: Txn, db: Shop, r: Row) {
    && Active(t)
    && match r
       case UserRow(id) => id == t.req.user
       case VariantRow(id) => exists i | 0 <= i < |t.views| :: t.views[i].variant == id
       case PromoRow(id) => t.promo.Some? && t.promo.value.id == id
       case ProductRow(id) => Counted(Products(db, t), |t.counters|, id)
  }

  ghost predicate Counted(ids: seq<nat>, n: nat, id: nat) {
    exists i | 0 <= i < n && i < |ids| :: ids[i] == id
  }

  lemma CountedStep(ids: seq<nat>, n: nat, id: nat)
    requires n < |ids|
    ensures Counted(ids, n + 1, id) <==> Counted(ids, n, id) || ids[n] == id
  {
  }

  ghost predicate CountersCurrent(db: Shop, ids: seq<nat>, counters: seq<int>) {
    && |counters| <= |ids|
    && forall k | 0 <= k < |counters| :: counters[k] == At(db.sales, ids[k])
  }

  ghost predicate ViewsCurrent(db: Shop, t: Txn) {
    && t.cart == ByVariant(CartOf(db, t.req.user))
    && |t.views| <= |t.cart|
    && forall i | 0 <= i < |t.views| :: t.views[i] == ReadLine(db, t.cart[i], t.req.currency)
  }

  ghost predicate Decided(db: Shop, req: Request, saw: nat, order: Option<Order>) {
    order.Some? && Decide(ReadSeeing(db, req, saw), req) == Success(order.value)
  }

  ghost predicate LinesCleared(db: Shop, t: Txn) {
    && ViewsCurrent(db, t)
    && |t.views| == |t.cart|
    && EarlyRefusal(t.views, RateIn(db.catalog, t.req.currency)).None?
  }

  predicate Unasked(t: Txn) {
    t.saw == 0 && t.promo.None? && t.order.None? && t.counters == []
  }

  /** The code as it is, but for a count that others may have passed since. */
  ghost predicate PromoRead(db: Shop, t: Txn) {
    t.promo == PromoSeen(db, t.req.user, t.saw) && t.saw <= Redeemed(db, t.req.user)
  }

  /** Everything read so far still stands in the committed tables, an earlier count of redemptions apart. */
  ghost predicate Current(db: Shop, t: Txn) {
    match t.phase
    case Starting => t.views == [] && Unasked(t)
    case ReadingCart => t.views == [] && Unasked(t)
    case LockingVariants => ViewsCurrent(db, t) && Unasked(t)
    case AskingPromo => LinesCleared(db, t) && Unasked(t)
    case LockingPromo =>
      LinesCleared(db, t) && t.saw <= Redeemed(db, t.req.user) && t.promo.None? && t.order.None? && t.counters == []
    case PricingBasket => LinesCleared(db, t) && PromoRead(db, t) && t.order.None? && t.counters == []
    case LockingProducts =>
      && LinesCleared(db, t)
      && PromoRead(db, t)
      && Decided(db, t.req, t.saw, t.order)
      && CountersCurrent(db, Products(db, t), t.counters)
    case Finished => true
  }

  /** Nothing is read before its phase. */
  ghost predicate Shaped(t: Txn) {
    && (t.phase in {Starting, ReadingCart} ==> t.views == [])
    && (t.phase == LockingVariants ==> |t.views| <= |t.cart|)
    && (t.phase !in {PricingBasket, LockingProducts, Finished} ==> t.promo.None?)
    && (t.phase !in {LockingProducts, Finished} ==> t.counters == [])
  }

  lemma CurrentIsShaped(db: Shop, t: Txn)
    requires Current(db, t)
    ensures Shaped(t)
  {
  }

  lemma ViewsAreRead(db: Shop, t: Txn)
    requires LinesCleared(db, t)
    ensures t.views == Read(db, t.req).lines
  {
  }

  lemma ViewStaysCurrent(db: Shop, t: Txn)
    requires Current(db, t) && t.phase == LockingVariants && Ending(db, t).None?
    ensures Current(db, Stepped(db, t))
  {
  }

  lemma ViewTakesRow(db: Shop, t: Txn, r: Row)
    requires Shaped(t) && t.phase == LockingVariants && Ending(db, t).None?
    ensures Holds(Stepped(db, t), db, r) <==> Holds(t, db, r) || Wanted(db, t) == Some(r)
  {
    var t', n := Stepped(db, t), |t.views|;
    if n < |t.cart| {
      assert t'.views[n].variant == t.cart[n].variant;
      assert forall i | 0 <= i < n :: t'.views[i] == t.views[i];
    }
  }

  /** One more product row, and its counter. */
  function CounterRead(db: Shop, t: Txn): Txn
    requires |t.counters| < |Products(db, t)|
  {
    t.(counters := t.counters + [At(db.sales, Products(db, t)[|t.counters|])])
  }

  lemma CounterStaysCurrent(db: Shop, t: Txn)
    requires Current(db, t) && t.phase == LockingProducts && |t.counters| < |Products(db, t)|
    ensures Stepped(db, t) == CounterRead(db, t) && Current(db, CounterRead(db, t))
  {
  }

  lemma CounterTakesRow(db: Shop, t: Txn, r: Row)
    requires t.phase == LockingProducts && |t.counters| < |Products(db, t)|
    ensures Holds(CounterRead(db, t), db, r) <==> Holds(t, db, r) || Wanted(db, t) == Some(r)
  {
    assert Products(db, CounterRead(db, t)) == Products(db, t);
    if r.ProductRow? {
      CountedStep(Products(db, t), |t.counters|, r.id);
    }
  }

  lemma PricedStaysCurrent(db: Shop, t: Txn)
    requires Current(db, t) && t.phase == PricingBasket && Ending(db, t).None?
    ensures Current(db, Stepped(db, t))
  {
    ViewsAreRead(db, t);
    assert ViewSoFar(db, t) == ReadSeeing(db, t.req, t.saw);
  }

  lemma PricedTakesNothing(db: Shop, t: Txn, r: Row)
    requires Shaped(t) && t.phase == PricingBasket && Ending(db, t).None?
    ensures Holds(Stepped(db, t), db, r) <==> Holds(t, db, r)
    ensures Wanted(db, t).None?
  {
  }

  /** A step that does not end the transaction keeps its reads current. */
  lemma SteppedStaysCurrent(db: Shop, t: Txn)
    requires Current(db, t) && t.phase != Finished && Ending(db, t).None?
    ensures Current(db, Stepped(db, t))
    ensures Stepped(db, t).req == t.req && Active(Stepped(db, t))
  {
    match t.phase {
      case LockingVariants => ViewStaysCurrent(db, t);
      case LockingProducts => CounterStaysCurrent(db, t);
      case PricingBasket => PricedStaysCurrent(db, t);
      case _ =>
    }
  }

  /** And it takes exactly the row it asked for. */
  lemma SteppedTakesWanted(db: Shop, t: Txn, r: Row)
    requires Shaped(t) && (t.phase == LockingProducts ==> t.order.Some?) && t.phase != Finished && Ending(db, t).None?
    ensures Holds(Stepped(db, t), db, r) <==> Holds(t, db, r) || Wanted(db, t) == Some(r)
  {
    match t.phase {
      case LockingVariants => ViewTakesRow(db, t, r);
      case LockingProducts =>
        CounterTakesRow(db, t, r);
      case PricingBasket => PricedTakesNothing(db, t, r);
      case _ =>
    }
  }

  // ----- The last step --------------------------------------------------------------

  lemma {:induction false} StockWrittenIs(views: seq<LineView>, v: nat, otherwise: int)
    requires forall i, j | 0 <= i < j < |views| :: views[i].variant != views[j].variant
    requires forall i | 0 <= i < |views| && views[i].variant == v :: views[i].stock == otherwise
    ensures StockWritten(views, v, otherwise) == otherwise - QtyOf(ItemsOf(views), v)
  {
    if views != [] {
      var front, last := views[..|views| - 1], views[|views| - 1];
      StockWrittenIs(front, v, otherwise);
      assert ItemsOf(views)[..|views| - 1] == ItemsOf(front);
      if last.variant == v {
        QtyOfAbsent(ItemsOf(front), v);
      }
    }
  }

  lemma {:induction false} CounterWrittenIs(ids: seq<nat>, counters: seq<int>, sold: nat -> int, p: nat, otherwise: int)
    requires |ids| == |counters|
    requires forall k | 0 <= k < |ids| && ids[k] == p :: counters[k] == otherwise
    ensures CounterWritten(ids, counters, sold, p, otherwise) == otherwise + if p in ids then sold(p) else 0
  {
    if ids != [] {
      var k := |ids| - 1;
      assert ids == ids[..k] + [ids[k]];
      CounterWrittenIs(ids[..k], counters[..k], sold, p, otherwise);
    }
  }

  lemma ViewsDistinct(db: Shop, t: Txn)
    requires Keyed(db) && ViewsCurrent(db, t)
    ensures Ascending(t.cart)
    ensures forall i, j | 0 <= i < j < |t.views| :: t.views[i].variant < t.views[j].variant
  {
    ByVariantAscends(CartOf(db, t.req.user));
  }

  lemma StockIsPublished(db: Shop, views: seq<LineView>)
    requires forall i, j | 0 <= i < j < |views| :: views[i].variant < views[j].variant
    requires forall i | 0 <= i < |views| :: views[i].stock == At(db.stock, views[i].variant)
    ensures BufferedStock(db, views) == StockAfter(db.stock, ItemsOf(views))
  {
    forall v | v in db.stock
      ensures StockWritten(views, v, db.stock[v]) == db.stock[v] - QtyOf(ItemsOf(views), v)
    {
      StockWrittenIs(views, v, db.stock[v]);
    }
  }

  lemma SalesArePublished(db: Shop, items: seq<Item>, counters: seq<int>)
    requires |counters| == |ProductsOf(db.catalog.productOf, items)|
    requires CountersCurrent(db, ProductsOf(db.catalog.productOf, items), counters)
    ensures BufferedSales(db, items, counters) == SalesAfter(db, items)
  {
    forall p | p in db.sales {
      CounterIsPublished(db, items, counters, p);
    }
  }

  lemma CounterIsPublished(db: Shop, items: seq<Item>, counters: seq<int>, p: nat)
    requires |counters| == |ProductsOf(db.catalog.productOf, items)| && p in db.sales
    requires CountersCurrent(db, ProductsOf(db.catalog.productOf, items), counters)
    ensures
      CounterWritten(ProductsOf(db.catalog.productOf, items), counters, SoldIn(items, db.catalog.productOf), p, db.sales[p])
      == db.sales[p] + SoldOf(items, db.catalog.productOf, p)
  {
    ProductsOfAscends(db.catalog.productOf, items);
    CounterWrittenIs(ProductsOf(db.catalog.productOf, items), counters, SoldIn(items, db.catalog.productOf), p, db.sales[p]);
  }

  lemma BuffersPublish(db: Shop, user: nat, o: Order, stock: map<nat, int>, sales: map<nat, int>)
    requires stock == StockAfter(db.stock, o.items) && sales == SalesAfter(db, o.items)
    ensures Publish(db, user, o).(stock := stock, sales := sales) == Publish(db, user, o)
  {
  }

  /** The buffered writes are the writes of a checkout run alone on the committed tables. */
  lemma WrittenIsPublished(db: Shop, t: Txn)
    requires Keyed(db) && Current(db, t)
    requires t.phase == LockingProducts && |t.counters| == |Products(db, t)|
    ensures Written(db, t) == Publish(db, t.req.user, t.order.value)
  {
    var o := t.order.value;
    ViewsAreRead(db, t);
    Ledger.DecidedOrder(ReadSeeing(db, t.req, t.saw), t.req, o);
    ViewsDistinct(db, t);
    StockIsPublished(db, t.views);
    SalesArePublished(db, o.items, t.counters);
    BuffersPublish(db, t.req.user, o, BufferedStock(db, t.views), BufferedSales(db, o.items, t.counters));
  }

  lemma EarlyRefusalDecides(v: View, req: Request)
    requires EarlyRefusal(v.lines, v.rate).Some?
    ensures Decide(v, req) == Failure(EarlyRefusal(v.lines, v.rate).value)
  {
  }

  /** Whatever ends a transaction is what the same checkout does when run alone at that moment. */
  lemma EndingIsSerial(db: Shop, t: Txn)
    requires Keyed(db) && Current(db, t) && Ending(db, t).Some?
    ensures
      var reply := Ending(db, t).value;
      && CreateSeeing(db, t.req, t.saw) == Outcome(if reply.Placed? then Written(db, t) else db, reply)
      && t.saw <= Redeemed(db, t.req.user)
  {
    match t.phase {
      case LockingVariants =>
        assert t.views == Read(db, t.req).lines;
        EarlyRefusalDecides(ReadSeeing(db, t.req, t.saw), t.req);
      case PricingBasket =>
        ViewsAreRead(db, t);
        assert ViewSoFar(db, t) == ReadSeeing(db, t.req, t.saw);
      case LockingProducts =>
        WrittenIsPublished(db, t);
    }
  }

  // ----- Another transaction's commit -------------------------------------------------

  lemma PriorOrdersFrame(db: Shop, user: nat, o: Order, other: nat)
    requires o.user == Some(user) && other != user
    ensures PriorOrders(Publish(db, user, o), other) == PriorOrders(db, other)
  {
    assert (db.orders + [o])[..|db.orders|] == db.orders;
  }

  lemma ReadLineFrame(db: Shop, user: nat, o: Order, line: CartLine, currency: Currency)
    requires forall i | 0 <= i < |o.items| :: o.items[i].variant != line.variant
    ensures ReadLine(Publish(db, user, o), line, currency) == ReadLine(db, line, currency)
  {
    QtyOfAbsent(o.items, line.variant);
  }

  /** Another customer's order may add a redemption of the same code, but none of this customer's. */
  lemma RedemptionFrame(db: Shop, user: nat, o: Order, code: nat, other: nat)
    requires Keyed(db) && other != user
    ensures RedemptionsOf(db.redemptions, code) <= RedemptionsOf(Publish(db, user, o).redemptions, code)
    ensures UsedBy(Publish(db, user, o).redemptions, code, other) == UsedBy(db.redemptions, code, other)
  {
    var before, after := db.redemptions, Publish(db, user, o).redemptions;
    assert forall i | i in before :: i in after && after[i] == before[i];
  }

  lemma PromoFrame(db: Shop, user: nat, o: Order, other: nat, saw: nat)
    requires Keyed(db) && other != user
    ensures PromoSeen(Publish(db, user, o), other, saw) == PromoSeen(db, other, saw)
    ensures Redeemed(db, other) <= Redeemed(Publish(db, user, o), other)
  {
    if other in db.cartPromo {
      var code := db.cartPromo[other];
      RedemptionFrame(db, user, o, code, other);
      SubsetSize(RedemptionsOf(db.redemptions, code), RedemptionsOf(Publish(db, user, o).redemptions, code));
    }
  }

  lemma CountersFrame(db: Shop, user: nat, o: Order, ids: seq<nat>, counters: seq<int>)
    requires CountersCurrent(db, ids, counters)
    requires forall k | 0 <= k < |counters| :: ids[k] !in ProductsOf(db.catalog.productOf, o.items)
    ensures CountersCurrent(Publish(db, user, o), ids, counters)
  {
    ProductsOfAscends(db.catalog.productOf, o.items);
  }

  /** The rows a finished checkout wrote, none of which t has locked. */
  ghost predicate Apart(db: Shop, user: nat, o: Order, t: Txn) {
    && t.req.user != user
    && (forall i | 0 <= i < |o.items| :: !Holds(t, db, VariantRow(o.items[i].variant)))
    && (forall p | p in ProductsOf(db.catalog.productOf, o.items) :: !Holds(t, db, ProductRow(p)))
  }

  lemma ViewsFrame(db: Shop, user: nat, o: Order, t: Txn)
    requires ViewsCurrent(db, t) && Active(t) && Apart(db, user, o, t)
    ensures ViewsCurrent(Publish(db, user, o), t)
  {
    forall i | 0 <= i < |t.views|
      ensures t.views[i] == ReadLine(Publish(db, user, o), t.cart[i], t.req.currency)
    {
      assert t.views[i].variant == t.cart[i].variant;
      forall k | 0 <= k < |o.items|
        ensures o.items[k].variant != t.cart[i].variant
      {
        assert !Holds(t, db, VariantRow(o.items[k].variant));
      }
      ReadLineFrame(db, user, o, t.cart[i], t.req.currency);
    }
  }

  lemma ReadFrame(db: Shop, user: nat, o: Order, t: Txn)
    requires Keyed(db) && Active(t) && Apart(db, user, o, t) && o.user == Some(user)
    requires LinesCleared(db, t)
    ensures ReadSeeing(Publish(db, user, o), t.req, t.saw) == ReadSeeing(db, t.req, t.saw)
  {
    var db' := Publish(db, user, o);
    ViewsFrame(db, user, o, t);
    PromoFrame(db, user, o, t.req.user, t.saw);
    assert LinesCleared(db', t);
    ViewsAreRead(db, t);
    ViewsAreRead(db', t);
    PriorOrdersFrame(db, user, o, t.req.user);
  }

  lemma CountersApart(db: Shop, user: nat, o: Order, t: Txn)
    requires Active(t) && Apart(db, user, o, t) && CountersCurrent(db, Products(db, t), t.counters)
    ensures CountersCurrent(Publish(db, user, o), Products(db, t), t.counters)
  {
    forall k | 0 <= k < |t.counters|
      ensures Products(db, t)[k] !in ProductsOf(db.catalog.productOf, o.items)
    {
      assert Holds(t, db, ProductRow(Products(db, t)[k]));
    }
    CountersFrame(db, user, o, Products(db, t), t.counters);
  }

  lemma HoldsIgnoresCommits(db: Shop, db': Shop, t: Txn, r: Row)
    requires db'.catalog.productOf == db.catalog.productOf
    ensures Holds(t, db', r) <==> Holds(t, db, r)
  {
  }

  /**
   * No commit of another checkout changes anything an open one has read under its
   * locks; only the count of redemptions may grow past what was seen.
   */
  lemma CommitFrame(db: Shop, user: nat, o: Order, t: Txn)
    requires Keyed(db) && Current(db, t)
    requires Active(t) ==> o.user == Some(user) && Apart(db, user, o, t)
    ensures Current(Publish(db, user, o), t)
  {
    match t.phase {
      case LockingVariants => ViewsFrame(db, user, o, t);
      case AskingPromo => ViewsFrame(db, user, o, t);
      case LockingPromo =>
        ViewsFrame(db, user, o, t);
        PromoFrame(db, user, o, t.req.user, t.saw);
      case PricingBasket =>
        ViewsFrame(db, user, o, t);
        PromoFrame(db, user, o, t.req.user, t.saw);
      case LockingProducts => CountingFrame(db, user, o, t);
      case _ =>
    }
  }

  lemma CountingFrame(db: Shop, user: nat, o: Order, t: Txn)
    requires Keyed(db) && Current(db, t) && t.phase == LockingProducts
    requires o.user == Some(user) && Apart(db, user, o, t)
    ensures Current(Publish(db, user, o), t)
  {
    LinesFrame(db, user, o, t);
    PromoFrame(db, user, o, t.req.user, t.saw);
    ReadFrame(db, user, o, t);
    CountersApart(db, user, o, t);
  }

  lemma LinesFrame(db: Shop, user: nat, o: Order, t: Txn)
    requires LinesCleared(db, t) && Active(t) && Apart(db, user, o, t)
    ensures LinesCleared(Publish(db, user, o), t)
  {
    ViewsFrame(db, user, o, t);
  }

  // ----- The invariant of every interleaving ------------------------------------------

  ghost predicate AllCurrent(db: Shop, txns: map<nat, Txn>) {
    forall id | id in txns :: Current(db, txns[id])
  }

  /** The lock table names exactly the rows each open transaction has taken. */
  ghost predicate OwnersSound(db: Shop, txns: map<nat, Txn>, owner: map<Row, nat>) {
    && (forall r | r in owner :: owner[r] in txns && Holds(txns[owner[r]], db, r))
    && (forall id, r | id in txns && Holds(txns[id], db, r) :: r in owner && owner[r] == id)
  }

  /** A checkout's reply is what it gets on these tables with the count it saw, and nobody saw too many. */
  predicate AsSeen(db: Shop, e: Entry) {
    CreateSeeing(db, e.req, e.saw).reply == e.reply && e.saw <= Redeemed(db, e.req.user)
  }

  /** The log replayed one checkout at a time gives these tables and these replies. */
  ghost predicate LogSerial(db0: Shop, log: seq<Entry>, db: Shop) {
    && db == Serial(db0, log)
    && forall k | 0 <= k < |log| :: AsSeen(Serial(db0, log[..k]), log[k])
  }

  ghost predicate Logged(log: seq<Entry>, id: nat) {
    exists k | 0 <= k < |log| :: log[k].id == id
  }

  /** Each finished transaction is logged once, under its own request, and nothing else is. */
  ghost predicate LogExact(txns: map<nat, Txn>, log: seq<Entry>) {
    && (forall i, j | 0 <= i < j < |log| :: log[i].id != log[j].id)
    && (forall k | 0 <= k < |log| :: log[k].id in txns && txns[log[k].id].req == log[k].req)
    && (forall id | id in txns :: txns[id].phase == Finished <==> Logged(log, id))
  }

  /** Two-phase locking, as seen at one instant. */
  ghost predicate LocksSound(s: Sys) {
    && Keyed(s.db)
    && AllCurrent(s.db, s.txns)
    && OwnersSound(s.db, s.txns, s.owner)
  }

  ghost predicate SerialSoFar(s: Sys, db0: Shop) {
    && LocksSound(s)
    && LogSerial(db0, s.log, s.db)
    && LogExact(s.txns, s.log)
  }

  predicate CanStep(s: Sys, id: nat) {
    id in s.txns && s.txns[id].phase != Finished && !Blocked(s, id)
  }

  lemma OwnersAfterGrant(db: Shop, txns: map<nat, Txn>, owner: map<Row, nat>, id: nat, t: Txn, row: Option<Row>)
    requires OwnersSound(db, txns, owner) && id in txns
    requires row.Some? && row.value in owner ==> owner[row.value] == id
    requires forall r :: Holds(t, db, r) <==> Holds(txns[id], db, r) || row == Some(r)
    ensures OwnersSound(db, txns[id := t], if row.Some? then owner[row.value := id] else owner)
  {
    var txns' := txns[id := t];
    var owner' := if row.Some? then owner[row.value := id] else owner;
    forall other, r | other in txns' && Holds(txns'[other], db, r)
      ensures r in owner' && owner'[r] == other
    {
      if other != id {
        assert Holds(txns[other], db, r);
      } else if row != Some(r) {
        assert Holds(txns[id], db, r);
      }
    }
    forall r | r in owner'
      ensures owner'[r] in txns' && Holds(txns'[owner'[r]], db, r)
    {
      if row != Some(r) {
        assert owner'[r] == owner[r];
      }
    }
  }

  lemma GrantKeepsLocks(s: Sys, id: nat)
    requires LocksSound(s) && CanStep(s, id) && Ending(s.db, s.txns[id]).None?
    ensures LocksSound(Grant(s, id))
    ensures Stepped(s.db, s.txns[id]).req == s.txns[id].req && Active(Stepped(s.db, s.txns[id]))
  {
    var t := s.txns[id];
    var t' := Stepped(s.db, t);
    forall r
      ensures Holds(t', s.db, r) <==> Holds(t, s.db, r) || Wanted(s.db, t) == Some(r)
    {
      CurrentIsShaped(s.db, t);
      SteppedTakesWanted(s.db, t, r);
    }
    SteppedStaysCurrent(s.db, t);
    OwnersAfterGrant(s.db, s.txns, s.owner, id, t', Wanted(s.db, t));
  }

  lemma GrantKeeps(s: Sys, db0: Shop, id: nat)
    requires SerialSoFar(s, db0) && CanStep(s, id) && Ending(s.db, s.txns[id]).None?
    ensures SerialSoFar(Grant(s, id), db0)
  {
    GrantKeepsLocks(s, id);
    LogExactAfter(s.txns, s.log, id, Stepped(s.db, s.txns[id]));
  }

  lemma LogExactAfter(txns: map<nat, Txn>, log: seq<Entry>, id: nat, t: Txn)
    requires LogExact(txns, log) && id in txns && t.req == txns[id].req
    requires t.phase != Finished && txns[id].phase != Finished
    ensures LogExact(txns[id := t], log)
  {
  }

  lemma PlacedHolds(db: Shop, t: Txn)
    requires Current(db, t) && t.phase == LockingProducts && |t.counters| == |Products(db, t)|
    ensures
      var o := t.order.value;
      && o.user == Some(t.req.user)
      && Holds(t, db, UserRow(t.req.user))
      && (forall i | 0 <= i < |o.items| :: Holds(t, db, VariantRow(o.items[i].variant)))
      && (forall p | p in ProductsOf(db.catalog.productOf, o.items) :: Holds(t, db, ProductRow(p)))
  {
    var o := t.order.value;
    ViewsAreRead(db, t);
    Ledger.DecidedOrder(ReadSeeing(db, t.req, t.saw), t.req, o);
    ItemsHeld(db, t, o.items);
  }

  lemma ItemsHeld(db: Shop, t: Txn, items: seq<Item>)
    requires Active(t) && items == ItemsOf(t.views)
    ensures forall i | 0 <= i < |items| :: Holds(t, db, VariantRow(items[i].variant))
  {
    forall i | 0 <= i < |items|
      ensures Holds(t, db, VariantRow(items[i].variant))
    {
      assert t.views[i].variant == items[i].variant;
    }
  }

  lemma HolderOwns(db: Shop, txns: map<nat, Txn>, owner: map<Row, nat>, id: nat, r: Row)
    requires OwnersSound(db, txns, owner) && id in txns
    ensures Holds(txns[id], db, r) ==> r in owner && owner[r] == id
  {
  }

  lemma Exclusive(db: Shop, txns: map<nat, Txn>, owner: map<Row, nat>, id: nat, other: nat, r: Row)
    requires OwnersSound(db, txns, owner) && id in txns && other in txns && other != id
    requires Holds(txns[id], db, r)
    ensures !Holds(txns[other], db, r)
  {
    HolderOwns(db, txns, owner, id, r);
    HolderOwns(db, txns, owner, other, r);
  }

  /** Two open transactions never hold one row, so the committing one wrote nothing the other read. */
  lemma OthersApart(s: Sys, id: nat, other: nat, o: Order)
    requires OwnersSound(s.db, s.txns, s.owner) && id in s.txns && other in s.txns && other != id
    requires Active(s.txns[other])
    requires Holds(s.txns[id], s.db, UserRow(s.txns[id].req.user))
    requires forall i | 0 <= i < |o.items| :: Holds(s.txns[id], s.db, VariantRow(o.items[i].variant))
    requires forall p | p in ProductsOf(s.db.catalog.productOf, o.items) :: Holds(s.txns[id], s.db, ProductRow(p))
    ensures Apart(s.db, s.txns[id].req.user, o, s.txns[other])
  {
    Exclusive(s.db, s.txns, s.owner, id, other, UserRow(s.txns[id].req.user));
    forall i | 0 <= i < |o.items|
      ensures !Holds(s.txns[other], s.db, VariantRow(o.items[i].variant))
    {
      Exclusive(s.db, s.txns, s.owner, id, other, VariantRow(o.items[i].variant));
    }
    forall p | p in ProductsOf(s.db.catalog.productOf, o.items)
      ensures !Holds(s.txns[other], s.db, ProductRow(p))
    {
      Exclusive(s.db, s.txns, s.owner, id, other, ProductRow(p));
    }
  }

  /** A commit leaves every other transaction's reads and rows as they were. */
  lemma CommitKeepsOthers(s: Sys, id: nat, other: nat)
    requires Keyed(s.db) && OwnersSound(s.db, s.txns, s.owner)
    requires id in s.txns && other in s.txns && other != id
    requires Current(s.db, s.txns[id]) && Current(s.db, s.txns[other])
    requires s.txns[id].phase == LockingProducts && |s.txns[id].counters| == |Products(s.db, s.txns[id])|
    ensures Current(Written(s.db, s.txns[id]), s.txns[other])
    ensures forall r :: Holds(s.txns[other], Written(s.db, s.txns[id]), r) <==> Holds(s.txns[other], s.db, r)
  {
    var t := s.txns[id];
    WrittenIsPublished(s.db, t);
    PlacedHolds(s.db, t);
    if Active(s.txns[other]) {
      OthersApart(s, id, other, t.order.value);
    }
    CommitFrame(s.db, t.req.user, t.order.value, s.txns[other]);
    forall r
      ensures Holds(s.txns[other], Written(s.db, t), r) <==> Holds(s.txns[other], s.db, r)
    {
      HoldsIgnoresCommits(s.db, Written(s.db, t), s.txns[other], r);
    }
  }

  lemma PlacedEnding(db: Shop, t: Txn)
    requires Current(db, t) && Ending(db, t).Some?
    ensures Ending(db, t).value.Placed? ==> t.phase == LockingProducts && |t.counters| == |Products(db, t)|
  {
  }

  lemma FinishKeepsOthers(s: Sys, id: nat, other: nat)
    requires Keyed(s.db) && AllCurrent(s.db, s.txns) && OwnersSound(s.db, s.txns, s.owner)
    requires id in s.txns && other in s.txns && other != id && Ending(s.db, s.txns[id]).Some?
    ensures
      var db' := Finish(s, id, Ending(s.db, s.txns[id]).value).db;
      && Current(db', s.txns[other])
      && forall r :: Holds(s.txns[other], db', r) <==> Holds(s.txns[other], s.db, r)
  {
    PlacedEnding(s.db, s.txns[id]);
    if Ending(s.db, s.txns[id]).value.Placed? {
      CommitKeepsOthers(s, id, other);
    }
  }

  lemma OwnersAfterRelease(db: Shop, db': Shop, txns: map<nat, Txn>, owner: map<Row, nat>, id: nat, t: Txn)
    requires OwnersSound(db, txns, owner) && id in txns && t.phase == Finished
    requires forall other, r | other in txns && other != id ::
               Holds(txns[other], db', r) <==> Holds(txns[other], db, r)
    ensures OwnersSound(db', txns[id := t], Released(owner, id))
  {
  }

  lemma LogSerialSnoc(db0: Shop, log: seq<Entry>, db: Shop, e: Entry, db': Shop)
    requires LogSerial(db0, log, db) && CreateSeeing(db, e.req, e.saw) == Outcome(db', e.reply)
    requires e.saw <= Redeemed(db, e.req.user)
    ensures LogSerial(db0, log + [e], db')
  {
    var longer := log + [e];
    assert longer[..|log|] == log;
    forall k | 0 <= k < |longer|
      ensures AsSeen(Serial(db0, longer[..k]), longer[k])
    {
      if k < |log| {
        assert longer[..k] == log[..k];
      }
    }
  }

  lemma LogExactSnoc(txns: map<nat, Txn>, log: seq<Entry>, id: nat, reply: Reply)
    requires LogExact(txns, log) && id in txns && txns[id].phase != Finished
    ensures LogExact(txns[id := txns[id].(phase := Finished)], log + [Entry(id, txns[id].req, txns[id].saw, reply)])
  {
    var longer := log + [Entry(id, txns[id].req, txns[id].saw, reply)];
    assert longer[|log|].id == id;
    forall other | other in txns
      ensures Logged(longer, other) <==> Logged(log, other) || other == id
    {
      if k :| 0 <= k < |log| && log[k].id == other {
        assert longer[k].id == other;
      }
    }
  }

  lemma KeyedAfter(db: Shop, req: Request, saw: nat)
    requires Keyed(db)
    ensures Keyed(CreateSeeing(db, req, saw).shop)
  {
  }

  lemma FinishKeepsKeyed(s: Sys, id: nat)
    requires Keyed(s.db) && id in s.txns && Current(s.db, s.txns[id]) && Ending(s.db, s.txns[id]).Some?
    ensures Keyed(Finish(s, id, Ending(s.db, s.txns[id]).value).db)
  {
    EndingIsSerial(s.db, s.txns[id]);
    KeyedAfter(s.db, s.txns[id].req, s.txns[id].saw);
  }

  lemma FinishKeepsCurrent(s: Sys, id: nat)
    requires LocksSound(s) && id in s.txns && Ending(s.db, s.txns[id]).Some?
    ensures
      var s' := Finish(s, id, Ending(s.db, s.txns[id]).value);
      AllCurrent(s'.db, s'.txns)
  {
    var s' := Finish(s, id, Ending(s.db, s.txns[id]).value);
    forall other | other in s'.txns
      ensures Current(s'.db, s'.txns[other])
    {
      if other != id {
        FinishKeepsOthers(s, id, other);
      }
    }
  }

  lemma FinishKeepsLocks(s: Sys, id: nat)
    requires LocksSound(s) && id in s.txns && Ending(s.db, s.txns[id]).Some?
    ensures LocksSound(Finish(s, id, Ending(s.db, s.txns[id]).value))
  {
    var s' := Finish(s, id, Ending(s.db, s.txns[id]).value);
    FinishKeepsKeyed(s, id);
    FinishKeepsCurrent(s, id);
    forall other, r | other in s.txns && other != id
      ensures Holds(s.txns[other], s'.db, r) <==> Holds(s.txns[other], s.db, r)
    {
      FinishKeepsOthers(s, id, other);
    }
    OwnersAfterRelease(s.db, s'.db, s.txns, s.owner, id, s.txns[id].(phase := Finished));
  }

  lemma FinishKeeps(s: Sys, db0: Shop, id: nat)
    requires SerialSoFar(s, db0) && CanStep(s, id) && Ending(s.db, s.txns[id]).Some?
    ensures SerialSoFar(Finish(s, id, Ending(s.db, s.txns[id]).value), db0)
  {
    var t, reply := s.txns[id], Ending(s.db, s.txns[id]).value;
    var s' := Finish(s, id, reply);
    FinishKeepsLocks(s, id);
    EndingIsSerial(s.db, t);
    LogSerialSnoc(db0, s.log, s.db, Entry(id, t.req, t.saw, reply), s'.db);
    LogExactSnoc(s.txns, s.log, id, reply);
  }

  lemma BeginInv(db: Shop, reqs: map<nat, Request>)
    requires Keyed(db)
    ensures SerialSoFar(Begin(db, reqs), db)
  {
  }

  lemma StepInv(s: Sys, db0: Shop, id: nat)
    requires SerialSoFar(s, db0)
    ensures SerialSoFar(Step(s, id), db0)
  {
    if CanStep(s, id) {
      if Ending(s.db, s.txns[id]).Some? {
        FinishKeeps(s, db0, id);
      } else {
        GrantKeeps(s, db0, id);
      }
    }
  }

  lemma {:induction false} ExecuteInv(db: Shop, reqs: map<nat, Request>, schedule: seq<nat>)
    requires Keyed(db)
    ensures SerialSoFar(Execute(Begin(db, reqs), schedule), db)
  {
    if schedule == [] {
      BeginInv(db, reqs);
    } else {
      var before := schedule[..|schedule| - 1];
      ExecuteInv(db, reqs, before);
      StepInv(Execute(Begin(db, reqs), before), db, schedule[|schedule| - 1]);
    }
  }

  /**
   * Serialisability, as far as it goes. After any interleaving of any number of
   * checkouts, the tables are those of the finished ones run one after another in
   * the order they finished, each got the reply that serial run gives it, and each
   * finished transaction is in that order exactly once. What keeps it from being
   * serial outright is the count of its code's redemptions each one goes by: it
   * may be an earlier one, though never one too high.
   */
  lemma Serialisable(db: Shop, reqs: map<nat, Request>, schedule: seq<nat>)
    requires Keyed(db)
    ensures
      var s := Execute(Begin(db, reqs), schedule);
      && s.db == Serial(db, s.log)
      && (forall k | 0 <= k < |s.log| ::
            AsSeen(Serial(db, s.log[..k]), s.log[k]))
      && LogExact(s.txns, s.log)
  {
    ExecuteInv(db, reqs, schedule);
  }
}
