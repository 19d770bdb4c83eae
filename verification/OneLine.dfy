/**
 * A checkout of a one-line cart, step by step, for the runs that show what can go
 * wrong: five turns up to the wait for its code's lock, three more up to the
 * commit (backend/internal/store/orders.go).
 */
module OneLine {
  import opened Wrappers
  import opened Pricing
  import opened Transactions
  import opened Sorting
  import opened Concurrency
  import Ledger

  /** Nothing stands in the way of selling the line. */
  predicate Sellable(db: Shop, req: Request, line: CartLine) {
    && CartOf(db, req.user) == [line]
    && LineProblem(ReadLine(db, line, req.currency)).None?
    && RateIn(db.catalog, req.currency).Some?
  }

  function FiveTurns(id: nat): seq<nat> {
    [id, id, id, id, id]
  }

  function ThreeTurns(id: nat): seq<nat> {
    [id, id, id]
  }

  function With(s: Sys, id: nat, t: Txn, owner: map<Row, nat>): Sys {
    s.(txns := s.txns[id := t], owner := owner)
  }

  lemma WithTwice(s: Sys, id: nat, t: Txn, owner: map<Row, nat>, t': Txn, owner': map<Row, nat>)
    ensures With(With(s, id, t, owner), id, t', owner') == With(s, id, t', owner')
  {
    assert s.txns[id := t][id := t'] == s.txns[id := t'];
  }

  function Fresh(req: Request, phase: Phase, cart: seq<CartLine>, views: seq<LineView>): Txn {
    Txn(req, phase, cart, views, 0, None, None, [])
  }

  // ----- Up to the wait for the code -------------------------------------------------

  lemma TakesUser(s: Sys, id: nat, req: Request)
    requires id in s.txns && s.txns[id] == Fresh(req, Starting, [], []) && UserRow(req.user) !in s.owner
    ensures Step(s, id) == With(s, id, Fresh(req, ReadingCart, [], []), s.owner[UserRow(req.user) := id])
  {
  }

  lemma ReadsCart(s: Sys, id: nat, req: Request, line: CartLine)
    requires id in s.txns && s.txns[id] == Fresh(req, ReadingCart, [], []) && CartOf(s.db, req.user) == [line]
    ensures Step(s, id) == With(s, id, Fresh(req, LockingVariants, [line], []), s.owner)
  {
    assert [line][1..] == [] && ByVariant([line]) == [line];
  }

  lemma LocksLine(s: Sys, id: nat, req: Request, line: CartLine)
    requires id in s.txns && s.txns[id] == Fresh(req, LockingVariants, [line], [])
    requires VariantRow(line.variant) !in s.owner
    ensures
      var view := ReadLine(s.db, line, req.currency);
      Step(s, id) == With(s, id, Fresh(req, LockingVariants, [line], [view]), s.owner[VariantRow(line.variant) := id])
  {
    assert [] + [ReadLine(s.db, line, req.currency)] == [ReadLine(s.db, line, req.currency)];
  }

  lemma ClearsLine(s: Sys, id: nat, req: Request, line: CartLine, view: LineView)
    requires id in s.txns && s.txns[id] == Fresh(req, LockingVariants, [line], [view])
    requires LineProblem(view).None? && RateIn(s.db.catalog, req.currency).Some?
    ensures Step(s, id) == With(s, id, Fresh(req, AskingPromo, [line], [view]), s.owner)
  {
    assert [view][..0] == [] && FirstProblem([view]) == LineProblem(view);
  }

  /** It has read its line, seen nothing wrong with it, and counted its code's redemptions. */
  function Asked(s: Sys, id: nat, req: Request, line: CartLine): Sys {
    var view := ReadLine(s.db, line, req.currency);
    With(s, id, Txn(req, LockingPromo, [line], [view], Redeemed(s.db, req.user), None, None, []),
         s.owner[UserRow(req.user) := id][VariantRow(line.variant) := id])
  }

  lemma AsksCount(s: Sys, id: nat, req: Request, line: CartLine, view: LineView)
    requires id in s.txns && s.txns[id] == Fresh(req, AskingPromo, [line], [view])
    ensures
      Step(s, id) ==
      With(s, id, Txn(req, LockingPromo, [line], [view], Redeemed(s.db, req.user), None, None, []), s.owner)
  {
  }

  /** It has read its one line under the line's lock. */
  function Looked(s: Sys, id: nat, req: Request, line: CartLine): Sys {
    With(s, id, Fresh(req, LockingVariants, [line], [ReadLine(s.db, line, req.currency)]),
         s.owner[UserRow(req.user) := id][VariantRow(line.variant) := id])
  }

  lemma Looks(s: Sys, id: nat, req: Request, line: CartLine)
    requires id in s.txns && s.txns[id] == Fresh(req, Starting, [], []) && CartOf(s.db, req.user) == [line]
    requires UserRow(req.user) !in s.owner && VariantRow(line.variant) !in s.owner
    ensures Step(Step(Step(s, id), id), id) == Looked(s, id, req, line)
  {
    TakesUser(s, id, req);
    ReadsCart(Step(s, id), id, req, line);
    LocksLine(Step(Step(s, id), id), id, req, line);
  }

  lemma AsksAfterLook(s: Sys, id: nat, req: Request, line: CartLine)
    requires Sellable(s.db, req, line)
    ensures Step(Step(Looked(s, id, req, line), id), id) == Asked(s, id, req, line)
  {
    var view := ReadLine(s.db, line, req.currency);
    var looked := Looked(s, id, req, line);
    ClearsLine(looked, id, req, line, view);
    AsksCount(Step(looked, id), id, req, line, view);
  }

  lemma Asks(s: Sys, id: nat, req: Request, line: CartLine)
    requires id in s.txns && s.txns[id] == Fresh(req, Starting, [], []) && Sellable(s.db, req, line)
    requires UserRow(req.user) !in s.owner && VariantRow(line.variant) !in s.owner
    ensures Execute(s, FiveTurns(id)) == Asked(s, id, req, line)
  {
    Looks(s, id, req, line);
    AsksAfterLook(s, id, req, line);
    FiveSteps(s, id);
  }

  lemma ThreeSteps(s: Sys, id: nat)
    ensures Execute(s, ThreeTurns(id)) == Step(Step(Step(s, id), id), id)
  {
    var turns := ThreeTurns(id);
    assert turns[..2] == [id, id] && [id, id][..1] == [id] && [id][..0] == [];
    assert Execute(s, [id]) == Step(s, id);
    assert Execute(s, [id, id]) == Step(Step(s, id), id);
  }

  lemma FiveSteps(s: Sys, id: nat)
    ensures Execute(s, FiveTurns(id)) == Step(Step(Step(Step(Step(s, id), id), id), id), id)
  {
    var turns := FiveTurns(id);
    ThreeSteps(s, id);
    assert turns[..4] == [id, id, id, id] && turns[..4][..3] == ThreeTurns(id);
    assert Execute(s, turns[..4]) == Step(Execute(s, ThreeTurns(id)), id);
  }

  // ----- Up to the commit --------------------------------------------------------------

  /** A checkout of one line that waits for its code's lock, having seen `saw` redemptions. */
  function Waiting(req: Request, line: CartLine, view: LineView, saw: nat): Txn {
    Txn(req, LockingPromo, [line], [view], saw, None, None, [])
  }

  function PromoLocked(s: Sys, id: nat, promo: Option<Promo>): map<Row, nat> {
    if promo.Some? then s.owner[PromoRow(promo.value.id) := id] else s.owner
  }

  lemma GetsCode(s: Sys, id: nat, req: Request, line: CartLine, view: LineView, saw: nat)
    requires id in s.txns && s.txns[id] == Waiting(req, line, view, saw)
    requires
      var promo := PromoSeen(s.db, req.user, saw);
      promo.Some? ==> PromoRow(promo.value.id) !in s.owner
    ensures
      var promo := PromoSeen(s.db, req.user, saw);
      Step(s, id) ==
      With(s, id, Waiting(req, line, view, saw).(phase := PricingBasket, promo := promo), PromoLocked(s, id, promo))
  {
  }

  lemma IsPriced(s: Sys, id: nat, t: Txn, o: Order)
    requires id in s.txns && s.txns[id] == t && t.phase == PricingBasket
    requires Decide(ViewSoFar(s.db, t), t.req) == Success(o)
    ensures Step(s, id) == With(s, id, t.(phase := LockingProducts, order := Some(o)), s.owner)
  {
  }

  lemma LocksProduct(s: Sys, id: nat, t: Txn, o: Order, product: nat)
    requires id in s.txns && s.txns[id] == t && t.phase == LockingProducts && t.order == Some(o) && t.counters == []
    requires ProductsOf(s.db.catalog.productOf, o.items) == [product] && ProductRow(product) !in s.owner
    ensures Step(s, id) ==
            With(s, id, t.(counters := [At(s.db.sales, product)]), s.owner[ProductRow(product) := id])
  {
    assert [] + [At(s.db.sales, product)] == [At(s.db.sales, product)];
  }

  /** What the judgement on one line says. */
  lemma OneItem(v: View, req: Request, o: Order, productOf: map<nat, nat>)
    requires Decide(v, req) == Success(o) && |v.lines| == 1
    ensures o.items == [ItemOf(v.lines[0])] && ProductsOf(productOf, o.items) == [ProductOf(productOf, v.lines[0].variant)]
  {
    assert o.items[..0] == [];
  }

  /** With its code's and its product's lock free it is judged, and stands ready to commit. */
  function Ready(s: Sys, id: nat, req: Request, line: CartLine, view: LineView, saw: nat, o: Order): Sys {
    var promo := PromoSeen(s.db, req.user, saw);
    var product := ProductOf(s.db.catalog.productOf, view.variant);
    With(s, id,
         Txn(req, LockingProducts, [line], [view], saw, promo, Some(o), [At(s.db.sales, product)]),
         PromoLocked(s, id, promo)[ProductRow(product) := id])
  }

  /** It has its code's lock and its order, and no product yet. */
  function Judged(s: Sys, id: nat, req: Request, line: CartLine, view: LineView, saw: nat, o: Order): Sys {
    var promo := PromoSeen(s.db, req.user, saw);
    With(s, id, Txn(req, LockingProducts, [line], [view], saw, promo, Some(o), []), PromoLocked(s, id, promo))
  }

  lemma GetsJudged(s: Sys, id: nat, req: Request, line: CartLine, view: LineView, saw: nat, o: Order, promo: Option<Promo>)
    requires id in s.txns && s.txns[id] == Waiting(req, line, view, saw)
    requires promo == PromoSeen(s.db, req.user, saw) && (promo.Some? ==> PromoRow(promo.value.id) !in s.owner)
    requires Decide(View([view], RateIn(s.db.catalog, req.currency), promo, PriorOrders(s.db, req.user)), req) == Success(o)
    ensures Step(Step(s, id), id) == Judged(s, id, req, line, view, saw, o)
  {
    var priced := Waiting(req, line, view, saw).(phase := PricingBasket, promo := promo);
    GetsCode(s, id, req, line, view, saw);
    IsPriced(Step(s, id), id, priced, o);
  }

  lemma JudgedGetsReady(s: Sys, id: nat, req: Request, line: CartLine, view: LineView, saw: nat, o: Order)
    requires ProductsOf(s.db.catalog.productOf, o.items) == [ProductOf(s.db.catalog.productOf, view.variant)]
    requires ProductRow(ProductOf(s.db.catalog.productOf, view.variant)) !in s.owner
    ensures Step(Judged(s, id, req, line, view, saw, o), id) == Ready(s, id, req, line, view, saw, o)
  {
    var promo, product := PromoSeen(s.db, req.user, saw), ProductOf(s.db.catalog.productOf, view.variant);
    var t, owner := Txn(req, LockingProducts, [line], [view], saw, promo, Some(o), []), PromoLocked(s, id, promo);
    LocksProduct(With(s, id, t, owner), id, t, o, product);
    WithTwice(s, id, t, owner, t.(counters := [At(s.db.sales, product)]), owner[ProductRow(product) := id]);
  }

  lemma GetsReady(s: Sys, id: nat, req: Request, line: CartLine, view: LineView, saw: nat, o: Order, promo: Option<Promo>)
    requires id in s.txns && s.txns[id] == Waiting(req, line, view, saw)
    requires promo == PromoSeen(s.db, req.user, saw) && (promo.Some? ==> PromoRow(promo.value.id) !in s.owner)
    requires Decide(View([view], RateIn(s.db.catalog, req.currency), promo, PriorOrders(s.db, req.user)), req) == Success(o)
    requires ProductRow(ProductOf(s.db.catalog.productOf, view.variant)) !in s.owner
    ensures Execute(s, ThreeTurns(id)) == Ready(s, id, req, line, view, saw, o)
  {
    ThreeSteps(s, id);
    GetsJudged(s, id, req, line, view, saw, o, promo);
    OneItem(View([view], RateIn(s.db.catalog, req.currency), promo, PriorOrders(s.db, req.user)), req, o,
            s.db.catalog.productOf);
    JudgedGetsReady(s, id, req, line, view, saw, o);
  }

  /** Its last turn commits, when the code has not been redeemed for this customer. */
  lemma Commits(s: Sys, id: nat, t: Txn, o: Order, product: nat)
    requires id in s.txns && s.txns[id] == t && t.phase == LockingProducts && t.order == Some(o) && |t.counters| == 1
    requires ProductsOf(s.db.catalog.productOf, o.items) == [product] && !Conflicts(s.db, t.req.user, o)
    ensures Step(s, id) == Finish(s, id, Placed(|s.db.orders|))
    ensures WroteOrder(s.db, Written(s.db, t), t.req.user, o)
  {
  }

  /** What the tables show of an order, stock and counters apart. */
  predicate WroteOrder(db: Shop, db': Shop, user: nat, o: Order) {
    && db'.catalog == db.catalog && db'.promos == db.promos
    && db'.orders == db.orders + [o]
    && db'.carts == db.carts[user := []] && db'.cartPromo == db.cartPromo - {user}
    && db'.redemptions ==
         if o.promo.Some? then db.redemptions[|db.orders| := Redemption(o.promo.value, user)] else db.redemptions
  }

  lemma ReleasesAll(owner: map<Row, nat>, id: nat, promo: Row, product: Row, hasPromo: bool)
    requires promo !in owner && product !in owner
    ensures Released((if hasPromo then owner[promo := id] else owner)[product := id], id) == Released(owner, id)
  {
  }

  function FourTurns(id: nat): seq<nat> {
    ThreeTurns(id) + [id]
  }

  /** From the wait to the commit, when no lock stands in the way and the judgement is `o`. */
  lemma PlacesOrder(s: Sys, id: nat, req: Request, line: CartLine, view: LineView, saw: nat, o: Order, promo: Option<Promo>)
    requires id in s.txns && s.txns[id] == Waiting(req, line, view, saw)
    requires promo == PromoSeen(s.db, req.user, saw) && (promo.Some? ==> PromoRow(promo.value.id) !in s.owner)
    requires Decide(View([view], RateIn(s.db.catalog, req.currency), promo, PriorOrders(s.db, req.user)), req) == Success(o)
    requires ProductRow(ProductOf(s.db.catalog.productOf, view.variant)) !in s.owner && !Conflicts(s.db, req.user, o)
    ensures
      var ready, s' := Ready(s, id, req, line, view, saw, o), Execute(s, FourTurns(id));
      && s' == Finish(ready, id, Placed(|s.db.orders|))
      && WroteOrder(s.db, s'.db, req.user, o)
  {
    var ready := Ready(s, id, req, line, view, saw, o);
    GetsReady(s, id, req, line, view, saw, o, promo);
    OneItem(View([view], RateIn(s.db.catalog, req.currency), promo, PriorOrders(s.db, req.user)), req, o,
            s.db.catalog.productOf);
    Commits(ready, id, ready.txns[id], o, ProductOf(s.db.catalog.productOf, view.variant));
    FourSteps(s, id);
  }

  lemma FourSteps(s: Sys, id: nat)
    ensures Execute(s, FourTurns(id)) == Step(Execute(s, ThreeTurns(id)), id)
  {
    assert FourTurns(id)[..3] == ThreeTurns(id);
  }

  // ----- What it goes by -------------------------------------------------------------------

  function OrderOf(db: Shop, req: Request): Order
    requires Decide(Read(db, req), req).Success?
  {
    Decide(Read(db, req), req).value
  }

  /** What a checkout of one line goes by, when run alone. */
  lemma LineReads(db: Shop, req: Request, line: CartLine)
    requires CartOf(db, req.user) == [line]
    ensures Read(db, req) == View([ReadLine(db, line, req.currency)], RateIn(db.catalog, req.currency),
                                  PromoSeen(db, req.user, Redeemed(db, req.user)), PriorOrders(db, req.user))
  {
    assert [line][1..] == [] && ByVariant([line]) == [line];
    assert PromoSeen(db, req.user, Redeemed(db, req.user)) == CartPromo(db, req.user);
  }

  /** What a checkout decides on is new: the customer has not redeemed the code before. */
  lemma DecidedIsNew(db: Shop, req: Request)
    requires Decide(Read(db, req), req).Success?
    ensures !Conflicts(db, req.user, OrderOf(db, req))
  {
    Ledger.DecidedOrder(Read(db, req), req, OrderOf(db, req));
  }

  function WaitsWith(db: Shop, req: Request, line: CartLine): Txn {
    Waiting(req, line, ReadLine(db, line, req.currency), Redeemed(db, req.user))
  }

  /** The locks of a checkout that waits for its code. */
  function Locked(owner: map<Row, nat>, id: nat, user: nat, variant: nat): map<Row, nat> {
    owner[UserRow(user) := id][VariantRow(variant) := id]
  }
}
