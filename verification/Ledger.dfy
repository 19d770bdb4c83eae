/**
 * What every run of the shop's transactions keeps: stock conserved, redemption
 * rows exact, timelines lawful, cash settled, member perks given once
 * (backend/internal/store/orders.go, promos.go, users.go).
 */
module Ledger {
  import opened Wrappers
  import opened Pricing
  import opened Lifecycle
  import opened Transactions
  import opened Sorting

  // ----- Tallies ------------------------------------------------------------------

  lemma TallySnoc(orders: seq<Order>, o: Order, w: Order -> int)
    ensures Tally(orders + [o], w) == Tally(orders, w) + w(o)
  {
    assert (orders + [o])[..|orders|] == orders;
  }

  lemma {:induction false} TallyUpdate(orders: seq<Order>, id: nat, o: Order, w: Order -> int)
    requires id < |orders|
    ensures Tally(orders[id := o], w) == Tally(orders, w) - w(orders[id]) + w(o)
  {
    var last := |orders| - 1;
    var changed := orders[id := o];
    if id == last {
      assert changed[..last] == orders[..last];
    } else {
      TallyUpdate(orders[..last], id, o, w);
      assert changed[..last] == orders[..last][id := o];
    }
  }

  lemma {:induction false} TallySame(a: seq<Order>, b: seq<Order>, w: Order -> int)
    requires |a| == |b| && forall i | 0 <= i < |a| :: w(a[i]) == w(b[i])
    ensures Tally(a, w) == Tally(b, w)
  {
    if a != [] {
      TallySame(a[..|a| - 1], b[..|b| - 1], w);
    }
  }

  /** A count of the customer's live orders is zero exactly when there is none. */
  lemma {:induction false} NoneLive(orders: seq<Order>, user: nat)
    ensures Tally(orders, LiveOf(user)) >= 0
    ensures Tally(orders, LiveOf(user)) == 0 <==>
              forall i | 0 <= i < |orders| :: !(Live(orders[i]) && orders[i].user == Some(user))
  {
    if orders != [] {
      var front := orders[..|orders| - 1];
      NoneLive(front, user);
      assert forall i | 0 <= i < |front| :: front[i] == orders[i];
    }
  }

  // ----- The invariant --------------------------------------------------------------

  ghost predicate CartSound(cart: seq<CartLine>, stock: map<nat, int>) {
    && UniqueCart(cart)
    && forall i | 0 <= i < |cart| :: cart[i].variant in stock && cart[i].qty > 0
  }

  ghost predicate CartsSound(s: Shop) {
    forall u | u in s.carts :: CartSound(s.carts[u], s.stock)
  }

  ghost predicate ItemsSound(items: seq<Item>, stock: map<nat, int>) {
    && UniqueItems(items)
    && forall k | 0 <= k < |items| :: items[k].variant in stock && items[k].qty > 0
  }

  ghost predicate OrdersSound(s: Shop) {
    forall i | 0 <= i < |s.orders| :: ItemsSound(s.orders[i].items, s.stock)
  }

  /** On the shelf plus in live orders is what was supplied, and the shelf is never negative. */
  ghost predicate Conserved(s: Shop) {
    && s.stock.Keys == s.supplied.Keys
    && forall v | v in s.stock ::
         s.stock[v] >= 0 && s.stock[v] + Tally(s.orders, ReservedBy(v)) == s.supplied[v]
  }

  predicate Redeems(o: Order) {
    Live(o) && o.user.Some? && o.promo.Some?
  }

  ghost predicate RowsMatch(orders: seq<Order>, redemptions: map<nat, Redemption>) {
    && (forall i: nat :: i in redemptions <==> i < |orders| && Redeems(orders[i]))
    && (forall i | i in redemptions ::
          redemptions[i] == Redemption(orders[i].promo.value, orders[i].user.value))
  }

  ghost predicate RowsDistinct(redemptions: map<nat, Redemption>) {
    forall i, j | i in redemptions && j in redemptions && redemptions[i] == redemptions[j] :: i == j
  }

  /** A redemption row per live order of a live account that used a code, no other row, and no two alike. */
  ghost predicate RedemptionsExact(orders: seq<Order>, redemptions: map<nat, Redemption>) {
    RowsMatch(orders, redemptions) && RowsDistinct(redemptions)
  }

  ghost predicate TimelineSound(o: Order) {
    && ValidHistory(o.events)
    && o.status == o.events[|o.events| - 1]
    && (o.status == Delivered && o.how == CashOnDelivery ==> o.payment != Unpaid)
  }

  ghost predicate TimelinesSound(orders: seq<Order>) {
    forall i | 0 <= i < |orders| :: TimelineSound(orders[i])
  }

  predicate PerkSound(o: Order) {
    o.totals.member == if o.prior >= 1 then PercentOf(o.totals.subtotal, MEMBER_PERCENT) else 0
  }

  /** One live first order an account; every other order carries the member discount. */
  ghost predicate PerksSound(orders: seq<Order>) {
    && (forall i | 0 <= i < |orders| :: PerkSound(orders[i]))
    && (forall i, j | 0 <= i < j < |orders| && Live(orders[i]) && Live(orders[j])
                      && orders[i].user.Some? && orders[i].user == orders[j].user ::
          orders[j].prior >= 1)
  }

  ghost predicate BooksSound(s: Shop) {
    && CartsSound(s)
    && OrdersSound(s)
    && Conserved(s)
    && RedemptionsExact(s.orders, s.redemptions)
    && TimelinesSound(s.orders)
    && PerksSound(s.orders)
  }

  /** The product a variant belongs to; one the catalog does not know counts as product 0. */
  predicate IsOf(c: Catalog, variant: nat, product: nat) {
    && (variant in c.productOf ==> c.productOf[variant] == product)
    && (variant !in c.productOf ==> product == 0)
  }

  /** A shop with goods on the shelf and no customer yet is where every run can start. */
  lemma OpeningBooks(catalog: Catalog, shelf: map<nat, int>, sales: map<nat, int>, promos: map<nat, Promo>)
    requires forall v | v in shelf :: shelf[v] >= 0
    ensures BooksSound(Shop(catalog, shelf, shelf, sales, map[], map[], promos, [], map[]))
  {
  }

  // ----- Checkout -------------------------------------------------------------------

  lemma {:induction false} NoProblemMeansStocked(lines: seq<LineView>, k: nat)
    requires FirstProblem(lines).None? && k < |lines|
    ensures lines[k].price.Some? && lines[k].stock >= lines[k].qty
  {
    if k < |lines| - 1 {
      NoProblemMeansStocked(lines[..|lines| - 1], k);
    }
  }

  /** What makes a new order fit to be written. */
  ghost predicate Publishable(s: Shop, user: nat, o: Order) {
    && o.user == Some(user)
    && o.status == Pending && o.payment == Unpaid && o.events == [Pending]
    && ItemsSound(o.items, s.stock)
    && (forall v | v in s.stock :: QtyOf(o.items, v) <= s.stock[v])
    && PriorOrders(s, user) <= o.prior
    && PerkSound(o)
  }

  /** What a checkout that is not refused has established about the order it is about to write. */
  ghost predicate Fresh(s: Shop, req: Request, o: Order) {
    Publishable(s, req.user, o) && o.prior == PriorOrders(s, req.user)
  }

  lemma DecidedOrder(v: View, req: Request, o: Order)
    requires Decide(v, req) == Success(o)
    ensures o.user == Some(req.user) && o.status == Pending && o.payment == Unpaid && o.events == [Pending]
    ensures o.items == ItemsOf(v.lines) && FirstProblem(v.lines).None?
    ensures v.prior >= 0 ==> o.prior == v.prior && PerkSound(o)
    ensures o.promo == if v.promo.Some? then Some(v.promo.value.id) else None
    ensures v.promo.Some? ==> !v.promo.value.usedByShopper
    ensures o.totals.subtotal == Subtotal(v.lines)
  {
  }

  /** The order a checkout writes, when it is not refused. */
  function NewOrder(s: Shop, req: Request): Option<Order> {
    var verdict := Decide(Read(s, req), req);
    if verdict.Success? && !Conflicts(s, req.user, verdict.value) then Some(verdict.value) else None
  }

  lemma CheckoutShape(s: Shop, req: Request)
    ensures NewOrder(s, req).None? ==>
              CreateOrder(s, req).shop == s && CreateOrder(s, req).reply.Refused?
    ensures NewOrder(s, req).Some? ==>
              CreateOrder(s, req) == Outcome(Publish(s, req.user, NewOrder(s, req).value), Placed(|s.orders|))
  {
  }

  /** A code reaches an order only with a redemption to spare and none of this customer's. */
  lemma NewOrderPromo(s: Shop, req: Request)
    requires NewOrder(s, req).Some?
    ensures
      var o := NewOrder(s, req).value;
      && o.user == Some(req.user) && Live(o)
      && o.promo.Some? ==>
           var code := o.promo.value;
           && code in s.promos
           && !UsedBy(s.redemptions, code, req.user)
           && (s.promos[code].maxRedemptions.Some? ==>
                 |RedemptionsOf(s.redemptions, code)| < s.promos[code].maxRedemptions.value)
  {
    var v := Read(s, req);
    var o := NewOrder(s, req).value;
    if v.promo.Some? {
      assert IssueOf(v.promo.value, req.now, req.currency, Subtotal(v.lines)) == NoIssue;
    }
  }

  lemma ReadLinesSound(s: Shop, req: Request)
    requires CartsSound(s)
    ensures
      var lines := Read(s, req).lines;
      && (forall i, j | 0 <= i < j < |lines| :: lines[i].variant < lines[j].variant)
      && forall i | 0 <= i < |lines| ::
           lines[i].variant in s.stock && lines[i].qty > 0 && lines[i].stock == s.stock[lines[i].variant]
  {
    var cart := CartOf(s, req.user);
    var sorted := ByVariant(cart);
    ByVariantAscends(cart);
    forall i | 0 <= i < |sorted|
      ensures sorted[i].variant in s.stock && sorted[i].qty > 0
    {
      assert sorted[i] in cart;
    }
  }

  /** The facts a checkout goes by are those of these tables, but for what it saw of its code. */
  ghost predicate ReadButCode(s: Shop, req: Request, v: View) {
    v == Read(s, req).(promo := v.promo)
  }

  lemma CheckoutIsFresh(s: Shop, req: Request, v: View, o: Order)
    requires CartsSound(s) && Conserved(s) && ReadButCode(s, req, v) && Decide(v, req) == Success(o)
    ensures Fresh(s, req, o)
  {
    NoneLive(s.orders, req.user);
    DecidedOrder(v, req, o);
    ReadLinesSound(s, req);
    forall w | w in s.stock
      ensures QtyOf(o.items, w) <= s.stock[w]
    {
      OrderedFits(v.lines, s.stock, w);
    }
  }

  lemma OrderedFits(lines: seq<LineView>, stock: map<nat, int>, w: nat)
    requires FirstProblem(lines).None? && w in stock && stock[w] >= 0
    requires forall i, j | 0 <= i < j < |lines| :: lines[i].variant < lines[j].variant
    requires forall i | 0 <= i < |lines| :: lines[i].variant in stock && lines[i].stock == stock[lines[i].variant]
    ensures QtyOf(ItemsOf(lines), w) <= stock[w]
  {
    var items := ItemsOf(lines);
    if k: nat :| k < |items| && items[k].variant == w {
      QtyOfPresent(items, k);
      NoProblemMeansStocked(lines, k);
    } else {
      QtyOfAbsent(items, w);
    }
  }

  /** An order holds exactly what was in the cart when it was read. */
  lemma OrderedQty(db: Shop, cart: seq<CartLine>, req: Request, v: nat)
    requires UniqueCart(cart)
    ensures QtyOf(ItemsOf(ReadLines(db, ByVariant(cart), req.currency)), v) == QtyInCart(cart, v)
  {
    var sorted := ByVariant(cart);
    var items := ItemsOf(ReadLines(db, sorted, req.currency));
    ByVariantAscends(cart);
    if i: nat :| i < |cart| && cart[i].variant == v {
      PresentQty(cart, i);
      assert cart[i] in sorted;
      var k: nat :| k < |sorted| && sorted[k] == cart[i];
      assert items[k].variant == v && items[k].qty == cart[i].qty;
      QtyOfPresent(items, k);
    } else {
      AbsentQty(cart, v);
      forall k | 0 <= k < |items|
        ensures items[k].variant != v
      {
        assert sorted[k] in cart;
      }
      QtyOfAbsent(items, v);
    }
  }

  lemma PublishConserves(s: Shop, user: nat, o: Order)
    requires Conserved(s) && Live(o)
    requires forall v | v in s.stock :: QtyOf(o.items, v) <= s.stock[v]
    ensures Conserved(Publish(s, user, o))
  {
    forall v | v in s.stock
      ensures Tally(s.orders + [o], ReservedBy(v)) == Tally(s.orders, ReservedBy(v)) + QtyOf(o.items, v)
    {
      TallySnoc(s.orders, o, ReservedBy(v));
    }
  }

  lemma PublishKeepsPerks(s: Shop, user: nat, o: Order)
    requires PerksSound(s.orders) && Publishable(s, user, o)
    ensures PerksSound(s.orders + [o])
  {
    NoneLive(s.orders, user);
  }

  lemma RowsDistinctAdd(rows: map<nat, Redemption>, i: nat, r: Redemption)
    requires RowsDistinct(rows) && r !in rows.Values
    ensures RowsDistinct(rows[i := r])
  {
    assert forall j | j in rows :: rows[j] in rows.Values;
  }

  lemma RowsMatchAdd(orders: seq<Order>, rows: map<nat, Redemption>, o: Order)
    requires RowsMatch(orders, rows) && Live(o) && o.user.Some?
    ensures
      RowsMatch(orders + [o],
                if o.promo.Some? then rows[|orders| := Redemption(o.promo.value, o.user.value)] else rows)
  {
    var orders' := orders + [o];
    assert forall i | 0 <= i < |orders| :: orders'[i] == orders[i];
    assert orders'[|orders|] == o;
  }

  lemma PublishKeepsRedemptions(s: Shop, user: nat, o: Order)
    requires RedemptionsExact(s.orders, s.redemptions) && Live(o) && o.user == Some(user)
    requires !Conflicts(s, user, o)
    ensures RedemptionsExact(s.orders + [o], Publish(s, user, o).redemptions)
  {
    RowsMatchAdd(s.orders, s.redemptions, o);
    if o.promo.Some? {
      RowsDistinctAdd(s.redemptions, |s.orders|, Redemption(o.promo.value, user));
    }
  }

  lemma PublishKeepsCarts(s: Shop, user: nat, o: Order)
    requires CartsSound(s) && OrdersSound(s) && TimelinesSound(s.orders)
    requires ItemsSound(o.items, s.stock) && TimelineSound(o)
    ensures
      var s' := Publish(s, user, o);
      CartsSound(s') && OrdersSound(s') && TimelinesSound(s'.orders)
  {
    assert StockAfter(s.stock, o.items).Keys == s.stock.Keys;
  }

  lemma PublishKeeps(s: Shop, user: nat, o: Order)
    requires BooksSound(s) && Publishable(s, user, o) && !Conflicts(s, user, o)
    ensures BooksSound(Publish(s, user, o))
  {
    PublishKeepsCarts(s, user, o);
    PublishConserves(s, user, o);
    PublishKeepsPerks(s, user, o);
    PublishKeepsRedemptions(s, user, o);
  }

  lemma CheckoutKeeps(s: Shop, req: Request, v: View)
    requires BooksSound(s) && ReadButCode(s, req, v)
    ensures BooksSound(Settle(s, req, v).shop)
  {
    var verdict := Decide(v, req);
    if verdict.Success? && !Conflicts(s, req.user, verdict.value) {
      CheckoutIsFresh(s, req, v, verdict.value);
      PublishKeeps(s, req.user, verdict.value);
    }
  }

  // ----- Status changes ---------------------------------------------------------------

  lemma AdvancedReserve(orders: seq<Order>, id: nat, to: Status, v: nat)
    requires id < |orders| && ValidTransition(orders[id].status, to)
    ensures Tally(orders[id := Advanced(orders[id], to)], ReservedBy(v))
            == Tally(orders, ReservedBy(v)) - if to == Cancelled then QtyOf(orders[id].items, v) else 0
  {
    TallyUpdate(orders, id, Advanced(orders[id], to), ReservedBy(v));
  }

  lemma AdvanceConserves(s: Shop, id: nat, to: Status)
    requires Conserved(s) && OrdersSound(s) && id < |s.orders| && ValidTransition(s.orders[id].status, to)
    ensures Conserved(WithStatus(s, id, to))
  {
    forall v | v in s.stock
      ensures Tally(WithStatus(s, id, to).orders, ReservedBy(v))
              == Tally(s.orders, ReservedBy(v)) - if to == Cancelled then QtyOf(s.orders[id].items, v) else 0
      ensures RestoredQty(s.orders[id].items, v) == QtyOf(s.orders[id].items, v) >= 0
    {
      AdvancedReserve(s.orders, id, to, v);
      RestoreIsExact(s.orders[id].items, v);
      QtyNonNegative(s.orders[id].items, v);
    }
  }

  lemma {:induction false} QtyNonNegative(items: seq<Item>, v: nat)
    requires forall k | 0 <= k < |items| :: items[k].qty > 0
    ensures QtyOf(items, v) >= 0
  {
    if items != [] {
      QtyNonNegative(items[..|items| - 1], v);
    }
  }

  lemma AdvanceKeepsRedemptions(s: Shop, id: nat, to: Status)
    requires RedemptionsExact(s.orders, s.redemptions) && id < |s.orders|
    requires ValidTransition(s.orders[id].status, to)
    ensures RedemptionsExact(WithStatus(s, id, to).orders, WithStatus(s, id, to).redemptions)
  {
  }

  lemma AdvanceKeepsTimeline(o: Order, to: Status)
    requires TimelineSound(o) && ValidTransition(o.status, to)
    ensures TimelineSound(Advanced(o, to))
  {
    HistoryExtends(o.events, to);
  }

  lemma AdvanceKeepsCarts(s: Shop, id: nat, to: Status)
    requires CartsSound(s) && OrdersSound(s) && id < |s.orders|
    ensures CartsSound(WithStatus(s, id, to)) && OrdersSound(WithStatus(s, id, to))
  {
    assert WithStatus(s, id, to).stock.Keys == s.stock.Keys;
  }

  lemma AdvanceKeepsPerks(orders: seq<Order>, id: nat, to: Status)
    requires PerksSound(orders) && id < |orders| && ValidTransition(orders[id].status, to)
    ensures PerksSound(orders[id := Advanced(orders[id], to)])
  {
  }

  lemma AdvanceKeeps(s: Shop, id: nat, to: Status)
    requires BooksSound(s) && id < |s.orders| && ValidTransition(s.orders[id].status, to)
    ensures BooksSound(WithStatus(s, id, to))
  {
    AdvanceKeepsCarts(s, id, to);
    AdvanceConserves(s, id, to);
    AdvanceKeepsRedemptions(s, id, to);
    AdvanceKeepsTimeline(s.orders[id], to);
    AdvanceKeepsPerks(s.orders, id, to);
    assert WithStatus(s, id, to).orders == s.orders[id := Advanced(s.orders[id], to)];
  }

  /** An order that differs in its payment alone. */
  ghost predicate RepaidAs(o: Order, o': Order) {
    o' == o.(payment := o'.payment)
  }

  lemma RepaidConserves(s: Shop, id: nat, o': Order)
    requires Conserved(s) && id < |s.orders| && RepaidAs(s.orders[id], o')
    ensures Conserved(s.(orders := s.orders[id := o']))
  {
    forall v | v in s.stock
      ensures Tally(s.orders[id := o'], ReservedBy(v)) == Tally(s.orders, ReservedBy(v))
    {
      TallyUpdate(s.orders, id, o', ReservedBy(v));
    }
  }

  lemma RepaidKeepsRows(orders: seq<Order>, redemptions: map<nat, Redemption>, id: nat, o': Order)
    requires RedemptionsExact(orders, redemptions) && id < |orders| && RepaidAs(orders[id], o')
    ensures RedemptionsExact(orders[id := o'], redemptions)
  {
  }

  lemma RepaidKeepsRest(s: Shop, id: nat, o': Order)
    requires OrdersSound(s) && PerksSound(s.orders) && id < |s.orders| && RepaidAs(s.orders[id], o')
    ensures OrdersSound(s.(orders := s.orders[id := o'])) && PerksSound(s.orders[id := o'])
  {
  }

  lemma PayKeeps(s: Shop, id: nat, to: PaymentStatus)
    requires BooksSound(s) && id < |s.orders| && ValidPayment(s.orders[id].payment, to)
    ensures BooksSound(s.(orders := s.orders[id := s.orders[id].(payment := to)]))
  {
    var o' := s.orders[id].(payment := to);
    RepaidConserves(s, id, o');
    RepaidKeepsRows(s.orders, s.redemptions, id, o');
    RepaidKeepsRest(s, id, o');
    assert TimelineSound(o');
  }

  // ----- Accounts and shelf -------------------------------------------------------------

  lemma DetachKeepsRedemptions(s: Shop, user: nat)
    requires RedemptionsExact(s.orders, s.redemptions)
    ensures RedemptionsExact(DeleteAccount(s, user).shop.orders, DeleteAccount(s, user).shop.redemptions)
  {
  }

  lemma DetachKeepsPerks(s: Shop, user: nat)
    requires PerksSound(s.orders)
    ensures PerksSound(DetachAll(s.orders, user))
  {
  }

  lemma CloseAccountKeeps(s: Shop, user: nat)
    requires BooksSound(s)
    ensures BooksSound(DeleteAccount(s, user).shop)
  {
    var s' := DeleteAccount(s, user).shop;
    forall v | v in s.stock
      ensures Tally(s'.orders, ReservedBy(v)) == Tally(s.orders, ReservedBy(v))
    {
      TallySame(s.orders, s'.orders, ReservedBy(v));
    }
    DetachKeepsRedemptions(s, user);
    DetachKeepsPerks(s, user);
  }

  /** The shelf counted anew, with the difference booked as supplied. */
  lemma ShelveConserves(s: Shop, stock: map<nat, int>, supplied: map<nat, int>, variant: nat)
    requires Conserved(s) && variant in s.stock && variant in stock && variant in supplied && stock[variant] >= 0
    requires stock == s.stock[variant := stock[variant]]
    requires supplied == s.supplied[variant := s.supplied[variant] + stock[variant] - s.stock[variant]]
    ensures Conserved(s.(stock := stock, supplied := supplied))
  {
  }

  lemma SoundIgnoresCounts(s: Shop, stock: map<nat, int>, supplied: map<nat, int>)
    requires CartsSound(s) && OrdersSound(s) && stock.Keys == s.stock.Keys
    ensures
      var s' := s.(stock := stock, supplied := supplied);
      CartsSound(s') && OrdersSound(s')
  {
  }

  lemma ShelveKeeps(s: Shop, variant: nat, qty: int)
    requires BooksSound(s)
    ensures BooksSound(SetStock(s, variant, qty).shop)
  {
    if variant in s.stock && qty >= 0 {
      var s' := SetStock(s, variant, qty).shop;
      ShelveConserves(s, s'.stock, s'.supplied, variant);
      SoundIgnoresCounts(s, s'.stock, s'.supplied);
    }
  }

  // ----- Carts ----------------------------------------------------------------------------

  lemma SetLineSound(cart: seq<CartLine>, variant: nat, qty: int, stock: map<nat, int>)
    requires CartSound(cart, stock) && variant in stock && qty > 0
    ensures CartSound(SetLine(cart, variant, qty), stock)
  {
    SetLineUnique(cart, variant, qty);
    var after := SetLine(cart, variant, qty);
    forall i | 0 <= i < |after|
      ensures after[i].variant in stock && after[i].qty > 0
    {
      assert after[i] in after;
    }
  }

  lemma DropLineSound(cart: seq<CartLine>, variant: nat, stock: map<nat, int>)
    requires CartSound(cart, stock)
    ensures CartSound(DropLine(cart, variant), stock)
  {
    DropLineUnique(cart, variant);
    var after := DropLine(cart, variant);
    forall i | 0 <= i < |after|
      ensures after[i].variant in stock && after[i].qty > 0
    {
      assert after[i] in after;
    }
  }

  lemma CartOpKeeps(s: Shop, user: nat, cart: seq<CartLine>)
    requires BooksSound(s) && CartSound(cart, s.stock)
    ensures BooksSound(s.(carts := s.carts[user := cart]))
  {
  }

  lemma {:induction false} AddLinesSound(cart: seq<CartLine>, lines: seq<MergeLine>, stock: map<nat, int>)
    requires CartSound(cart, stock)
    requires forall i | 0 <= i < |lines| && lines[i].issue !in {Unavailable, OutOfStock} ::
               lines[i].variant in stock && lines[i].qty > 0
    ensures CartSound(AddLines(cart, lines), stock)
  {
    if lines != [] {
      var front, last := lines[..|lines| - 1], lines[|lines| - 1];
      AddLinesSound(cart, front, stock);
      var before := AddLines(cart, front);
      if last.issue !in {Unavailable, OutOfStock} {
        InCartNonNegative(before, last.variant);
        SetLineSound(before, last.variant, QtyInCart(before, last.variant) + last.qty, stock);
      }
    }
  }

  lemma {:induction false} InCartNonNegative(cart: seq<CartLine>, variant: nat)
    requires forall i | 0 <= i < |cart| :: cart[i].qty > 0
    ensures QtyInCart(cart, variant) >= 0
    ensures QtyInCart(cart, variant) > 0 <==> exists i | 0 <= i < |cart| :: cart[i].variant == variant
  {
    if cart != [] && cart[0].variant != variant {
      InCartNonNegative(cart[1..], variant);
      if i: nat :| i < |cart| && cart[i].variant == variant {
        assert cart[1..][i - 1].variant == variant;
      }
      if i: nat :| i < |cart[1..]| && cart[1..][i].variant == variant {
        assert cart[i + 1].variant == variant;
      }
    }
  }

  lemma ReorderShape(s: Shop, user: nat, id: nat)
    ensures Reorder(s, user, id).shop == s.(carts := Reorder(s, user, id).shop.carts)
  {
    if id < |s.orders| && s.orders[id].user == Some(user) {
      var cart := AddLines(CartOf(s, user), MergeLines(s, user, s.orders[id].items));
      assert Reorder(s, user, id).shop == s.(carts := s.carts[user := cart]);
    }
  }

  lemma ReorderKeeps(s: Shop, user: nat, id: nat)
    requires BooksSound(s)
    ensures BooksSound(Reorder(s, user, id).shop)
  {
    if id < |s.orders| && s.orders[id].user == Some(user) {
      var lines := MergeLines(s, user, s.orders[id].items);
      assert CartSound(CartOf(s, user), s.stock);
      AddLinesSound(CartOf(s, user), lines, s.stock);
      CartOpKeeps(s, user, AddLines(CartOf(s, user), lines));
    }
  }

  // ----- Every run ------------------------------------------------------------------------

  lemma StatusKeeps(s: Shop, id: nat, to: Status)
    requires BooksSound(s)
    ensures BooksSound(UpdateOrderStatus(s, id, to).shop)
  {
    if id < |s.orders| && ValidTransition(s.orders[id].status, to) {
      AdvanceKeeps(s, id, to);
    }
  }

  lemma CancelKeeps(s: Shop, user: nat, id: nat)
    requires BooksSound(s)
    ensures BooksSound(CancelOrderByCustomer(s, user, id).shop)
  {
    if id < |s.orders| && CustomerMayCancel(s.orders[id].status) {
      AdvanceKeeps(s, id, Cancelled);
    }
  }

  lemma PaymentKeeps(s: Shop, id: nat, to: PaymentStatus)
    requires BooksSound(s)
    ensures BooksSound(UpdatePaymentStatus(s, id, to).shop)
  {
    if id < |s.orders| && ValidPayment(s.orders[id].payment, to) {
      PayKeeps(s, id, to);
    }
  }

  lemma SetCartItemKeeps(s: Shop, user: nat, variant: nat, qty: int)
    requires BooksSound(s)
    ensures BooksSound(SetCartItem(s, user, variant, qty).shop)
  {
    if variant in s.stock && qty > 0 {
      SetLineSound(CartOf(s, user), variant, qty, s.stock);
      CartOpKeeps(s, user, SetLine(CartOf(s, user), variant, qty));
    }
  }

  lemma DeleteCartItemKeeps(s: Shop, user: nat, variant: nat)
    requires BooksSound(s)
    ensures BooksSound(DeleteCartItem(s, user, variant).shop)
  {
    DropLineSound(CartOf(s, user), variant, s.stock);
    CartOpKeeps(s, user, DropLine(CartOf(s, user), variant));
  }

  /** Codes, prices and flags are not part of the books. */
  lemma BooksIgnoreCatalog(s: Shop, catalog: Catalog, cartPromo: map<nat, nat>, promos: map<nat, Promo>)
    requires BooksSound(s)
    ensures BooksSound(s.(catalog := catalog, cartPromo := cartPromo, promos := promos))
  {
  }

  lemma SetCartPromoKeeps(s: Shop, user: nat, code: nat)
    requires BooksSound(s)
    ensures BooksSound(SetCartPromo(s, user, code).shop)
  {
    BooksIgnoreCatalog(s, s.catalog, s.cartPromo[user := code], s.promos);
  }

  lemma ClearCartPromoKeeps(s: Shop, user: nat)
    requires BooksSound(s)
    ensures BooksSound(ClearCartPromo(s, user).shop)
  {
    BooksIgnoreCatalog(s, s.catalog, s.cartPromo - {user}, s.promos);
  }

  lemma PromoRulesKeep(s: Shop, code: nat, rules: Promo)
    requires BooksSound(s)
    ensures BooksSound(CreatePromo(s, code, rules).shop) && BooksSound(UpdatePromo(s, code, rules).shop)
  {
    BooksIgnoreCatalog(s, s.catalog, s.cartPromo, s.promos[code := rules]);
  }

  lemma CatalogKeeps(s: Shop, c: Catalog)
    requires BooksSound(s)
    ensures BooksSound(EditCatalog(s, c).shop)
  {
    BooksIgnoreCatalog(s, EditCatalog(s, c).shop.catalog, s.cartPromo, s.promos);
  }

  /** The transactions on orders. */
  lemma OrderOpKeeps(s: Shop, op: Op)
    requires BooksSound(s) && OrderOp(op)
    ensures BooksSound(Apply(s, op).shop)
  {
    match op {
      case Checkout(req) => CheckoutKeeps(s, req, Read(s, req));
      case Advance(id, to) => StatusKeeps(s, id, to);
      case CustomerCancel(user, id) => CancelKeeps(s, user, id);
      case Pay(id, payment) => PaymentKeeps(s, id, payment);
      case CloseAccount(user) => CloseAccountKeeps(s, user);
    }
  }

  /** The customer's own edits of the cart. */
  lemma CartEditKeeps(s: Shop, op: Op)
    requires BooksSound(s) && (op.PutInCart? || op.TakeFromCart?)
    ensures BooksSound(Apply(s, op).shop)
  {
    match op {
      case PutInCart(user, variant, qty) => SetCartItemKeeps(s, user, variant, qty);
      case TakeFromCart(user, variant) => DeleteCartItemKeeps(s, user, variant);
    }
  }

  lemma RefillKeeps(s: Shop, op: Op)
    requires BooksSound(s) && (op.Again? || op.Shelve?)
    ensures BooksSound(Apply(s, op).shop)
  {
    match op {
      case Again(user, id) => ReorderKeeps(s, user, id);
      case Shelve(variant, qty) => ShelveKeeps(s, variant, qty);
    }
  }

  lemma CartCodeKeeps(s: Shop, op: Op)
    requires BooksSound(s) && (op.ApplyCode? || op.RemoveCode?)
    ensures BooksSound(Apply(s, op).shop)
  {
    match op {
      case ApplyCode(user, code) => SetCartPromoKeeps(s, user, code);
      case RemoveCode(user) => ClearCartPromoKeeps(s, user);
    }
  }

  lemma RulesKeep(s: Shop, op: Op)
    requires BooksSound(s) && (op.AddPromo? || op.EditPromo?)
    ensures BooksSound(Apply(s, op).shop)
  {
    PromoRulesKeep(s, op.code, op.rules);
  }

  lemma ApplyKeeps(s: Shop, op: Op)
    requires BooksSound(s)
    ensures BooksSound(Apply(s, op).shop)
  {
    if OrderOp(op) {
      OrderOpKeeps(s, op);
    } else if op.PutInCart? || op.TakeFromCart? {
      CartEditKeeps(s, op);
    } else if op.Again? || op.Shelve? {
      RefillKeeps(s, op);
    } else if op.ApplyCode? || op.RemoveCode? {
      CartCodeKeeps(s, op);
    } else if op.Reprice? {
      CatalogKeeps(s, op.catalog);
    } else {
      RulesKeep(s, op);
    }
  }

  /** Every transaction, in every order, from every sound state: the books stay sound. */
  lemma {:induction false} RunKeeps(s: Shop, ops: seq<Op>)
    requires BooksSound(s)
    ensures BooksSound(Run(s, ops))
  {
    if ops != [] {
      RunKeeps(s, ops[..|ops| - 1]);
      ApplyKeeps(Run(s, ops[..|ops| - 1]), ops[|ops| - 1]);
    }
  }
}
