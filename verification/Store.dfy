/**
 * The order transactions as they run: rows read, checked and rewritten one at
 * a time, with a refusal leaving everything as it was
 * (backend/internal/store/orders.go). Each is proved to be the transaction of
 * module Transactions.
 */
module Store {
  import opened Wrappers
  import opened Pricing
  import opened Lifecycle
  import opened Transactions
  import Admins
  import Ledger

  lemma {:induction false} ProblemInPrefix(lines: seq<LineView>, k: nat)
    requires k <= |lines| && FirstProblem(lines[..k]).Some?
    ensures FirstProblem(lines) == FirstProblem(lines[..k])
  {
    if k < |lines| {
      var front := lines[..|lines| - 1];
      assert front[..k] == lines[..k];
      ProblemInPrefix(front, k);
    } else {
      assert lines[..k] == lines;
    }
  }

  lemma FirstProblemAt(lines: seq<LineView>, k: nat)
    requires k < |lines| && FirstProblem(lines[..k]).None?
    ensures FirstProblem(lines[..k + 1]) == LineProblem(lines[k])
  {
    assert lines[..k + 1][..k] == lines[..k];
  }

  /** The stock check, the subtotal and the cold-chain flag, in one pass under the locks. */
  method CheckLines(lines: seq<LineView>) returns (problem: Option<Refusal>, subtotal: int, cold: bool)
    ensures problem == FirstProblem(lines)
    ensures problem.None? ==> subtotal == Subtotal(lines) && cold == AnyCold(lines)
  {
    subtotal, cold := 0, false;
    for i := 0 to |lines|
      invariant FirstProblem(lines[..i]).None?
      invariant subtotal == Subtotal(lines[..i])
      invariant cold == AnyCold(lines[..i])
    {
      var l := lines[i];
      FirstProblemAt(lines, i);
      if l.price.None? {
        ProblemInPrefix(lines, i + 1);
        return Some(PriceUnavailable(l.variant)), subtotal, cold;
      }
      if l.stock < l.qty {
        ProblemInPrefix(lines, i + 1);
        return Some(StockShort(l.variant, l.stock)), subtotal, cold;
      }
      assert lines[..i + 1] == lines[..i] + [l];
      subtotal := subtotal + l.price.value * l.qty;
      cold := cold || l.cold;
    }
    assert lines[..|lines|] == lines;
    problem := None;
  }

  /** Quantities summed per product, so that each product row is written once. */
  method SumSold(items: seq<Item>, productOf: map<nat, nat>) returns (sold: map<nat, int>)
    ensures forall p | p in sold :: sold[p] == SoldOf(items, productOf, p)
    ensures forall p | p !in sold :: SoldOf(items, productOf, p) == 0
  {
    sold := map[];
    for i := 0 to |items|
      invariant forall p | p in sold :: sold[p] == SoldOf(items[..i], productOf, p)
      invariant forall p | p !in sold :: SoldOf(items[..i], productOf, p) == 0
    {
      var p := ProductOf(productOf, items[i].variant);
      assert items[..i + 1][..i] == items[..i];
      sold := sold[p := (if p in sold then sold[p] else 0) + items[i].qty];
    }
    assert items[..|items|] == items;
  }

  /** The ids in ascending order, which a map does not keep. */
  method SortIds(ids: set<nat>) returns (sorted: seq<nat>)
    ensures forall p :: p in sorted <==> p in ids
    ensures forall i, j | 0 <= i < j < |sorted| :: sorted[i] < sorted[j]
  {
    sorted := [];
    var todo := ids;
    while todo != {}
      invariant todo <= ids
      invariant forall p :: p in sorted <==> p in ids && p !in todo
      invariant forall i, j | 0 <= i < j < |sorted| :: sorted[i] < sorted[j]
      invariant forall i, p | 0 <= i < |sorted| && p in todo :: sorted[i] < p
      decreases |todo|
    {
      var least := Least(todo);
      sorted := sorted + [least];
      todo := todo - {least};
    }
  }

  method Least(ids: set<nat>) returns (least: nat)
    requires ids != {}
    ensures least in ids && forall p | p in ids :: least <= p
  {
    least :| least in ids;
    var todo := ids - {least};
    while todo != {}
      invariant todo <= ids && least in ids
      invariant forall p | p in ids && p !in todo :: least <= p
      decreases |todo|
    {
      var p :| p in todo;
      todo := todo - {p};
      if p < least {
        least := p;
      }
    }
  }

  lemma Recounted(s: Shop, variant: nat, qty: nat, s': Shop)
    requires variant in s.stock
    requires s' == s.(stock := s'.stock, supplied := s'.supplied)
    requires s'.stock == s.stock[variant := qty]
    requires s'.supplied == s.supplied[variant := At(s.supplied, variant) + qty - s.stock[variant]]
    ensures SetStock(s, variant, qty) == Outcome(s', Done)
  {
  }

  /** The counters with the sold quantities of some products added. */
  ghost function Bumped(sales: map<nat, int>, sold: map<nat, int>, written: set<nat>): map<nat, int> {
    map p | p in sales :: sales[p] + if p in written && p in sold then sold[p] else 0
  }

  lemma BumpOne(sales: map<nat, int>, sold: map<nat, int>, written: set<nat>, p: nat)
    requires p in sold && p !in written
    ensures
      var before := Bumped(sales, sold, written);
      Bumped(sales, sold, written + {p}) == if p in before then before[p := before[p] + sold[p]] else before
  {
  }

  lemma AllBumped(s: Shop, items: seq<Item>, sold: map<nat, int>, ids: seq<nat>, written: set<nat>)
    requires forall p :: p in ids <==> p in sold
    requires forall i | 0 <= i < |ids| :: ids[i] in written
    requires forall p | p in sold :: sold[p] == SoldOf(items, s.catalog.productOf, p)
    requires forall p | p !in sold :: SoldOf(items, s.catalog.productOf, p) == 0
    ensures Bumped(s.sales, sold, written) == SalesAfter(s, items)
  {
    assert forall p | p in sold :: p in ids;
  }

  lemma AddLinesSnoc(cart: seq<CartLine>, lines: seq<MergeLine>, out: MergeLine)
    ensures AddLines(cart, lines + [out]) ==
            if out.issue in {Unavailable, OutOfStock} then AddLines(cart, lines)
            else SetLine(AddLines(cart, lines), out.variant, QtyInCart(AddLines(cart, lines), out.variant) + out.qty)
  {
    assert (lines + [out])[..|lines|] == lines;
  }

  class Store {
    var catalog: Catalog
    var stock: map<nat, int>
    ghost var supplied: map<nat, int>
    var sales: map<nat, int>
    var carts: map<nat, seq<CartLine>>
    var cartPromo: map<nat, nat>
    var promos: map<nat, Promo>
    var orders: seq<Order>
    var redemptions: map<nat, Redemption>

    /** The tables as one value. */
    ghost function State(): Shop
      reads this
    {
      Shop(catalog, stock, supplied, sales, carts, cartPromo, promos, orders, redemptions)
    }

    /** The books are sound: what every transaction keeps. */
    ghost predicate Valid()
      reads this
    {
      Ledger.BooksSound(State())
    }

    /** Goods on the shelf and codes in the drawer; no customer yet. */
    constructor (catalog: Catalog, shelf: map<nat, int>, sales: map<nat, int>, promos: map<nat, Promo>)
      requires forall v | v in shelf :: shelf[v] >= 0
      ensures Valid()
      ensures State() == Shop(catalog, shelf, shelf, sales, map[], map[], promos, [], map[])
    {
      this.catalog, this.stock, this.supplied, this.sales, this.promos := catalog, shelf, shelf, sales, promos;
      carts, cartPromo, orders, redemptions := map[], map[], [], map[];
      new;
      Ledger.OpeningBooks(catalog, shelf, sales, promos);
    }

    method ReadCart(req: Request) returns (lines: seq<LineView>)
      ensures lines == Read(State(), req).lines
    {
      var cart := if req.user in carts then carts[req.user] else [];
      var sorted := ByVariant(cart);
      lines := [];
      for i := 0 to |sorted|
        invariant |lines| == i
        invariant forall k | 0 <= k < i :: lines[k] == ReadLine(State(), sorted[k], req.currency)
      {
        var v := sorted[i].variant;
        var product := ProductOf(catalog.productOf, v);
        lines := lines + [LineView(v, sorted[i].qty, At(stock, v), product, product in catalog.cold,
                                   PriceIn(catalog, v, req.currency))];
      }
    }

    /** The code the cart carries, with its live counts for this shopper. */
    method ReadPromo(user: nat) returns (promo: Option<Promo>)
      ensures promo == CartPromo(State(), user)
    {
      if user !in cartPromo || cartPromo[user] !in promos {
        return None;
      }
      var code := cartPromo[user];
      var count := |RedemptionsOf(redemptions, code)|;
      var used := UsedBy(redemptions, code, user);
      promo := Some(promos[code].(id := code, redemptions := count, usedByShopper := used));
    }

    method CountPrior(user: nat) returns (prior: int)
      ensures prior == PriorOrders(State(), user)
    {
      prior := 0;
      for i := 0 to |orders|
        invariant prior == Tally(orders[..i], LiveOf(user))
      {
        Ledger.TallySnoc(orders[..i], orders[i], LiveOf(user));
        assert orders[..i + 1] == orders[..i] + [orders[i]];
        if Live(orders[i]) && orders[i].user == Some(user) {
          prior := prior + 1;
        }
      }
      assert orders[..|orders|] == orders;
    }

    /** One decrement per order line. */
    method TakeStock(items: seq<Item>)
      modifies this`stock
      ensures stock == StockAfter(old(stock), items)
    {
      for i := 0 to |items|
        invariant stock.Keys == old(stock).Keys
        invariant forall v | v in stock :: stock[v] == old(stock)[v] - QtyOf(items[..i], v)
      {
        assert items[..i + 1][..i] == items[..i];
        var v := items[i].variant;
        if v in stock {
          stock := stock[v := stock[v] - items[i].qty];
        }
      }
      assert items[..|items|] == items;
    }

    /** One increment per product, in ascending id order. */
    method CountSales(items: seq<Item>)
      modifies this`sales
      ensures sales == SalesAfter(old(State()), items)
    {
      var sold := SumSold(items, catalog.productOf);
      var ids := SortIds(sold.Keys);
      ghost var written: set<nat> := {};
      assert sales == Bumped(old(sales), sold, {});
      for k := 0 to |ids|
        invariant forall i | 0 <= i < |ids| :: ids[i] in written <==> i < k
        invariant written <= sold.Keys && sales == Bumped(old(sales), sold, written)
      {
        var p := ids[k];
        if p in sales {
          sales := sales[p := sales[p] + sold[p]];
        }
        BumpOne(old(sales), sold, written, p);
        written := written + {p};
      }
      AllBumped(old(State()), items, sold, ids, written);
    }

    /** The reading half of a checkout: every check, in order, and the price. */
    method JudgeOrder(req: Request) returns (verdict: Result<Order, Refusal>)
      ensures verdict == Decide(Read(State(), req), req)
    {
      var lines := ReadCart(req);
      if |lines| == 0 {
        return Failure(EmptyCart);
      }
      var problem, subtotal, cold := CheckLines(lines);
      if problem.Some? {
        return Failure(problem.value);
      }
      if req.currency !in catalog.rates {
        return Failure(NoShippingRate);
      }
      var promo := ReadPromo(req.user);
      var prior := CountPrior(req.user);
      var b := Price(PriceInput(req.currency, subtotal, cold, catalog.rates[req.currency], prior, promo, req.now));
      if promo.Some? && b.issue != NoIssue {
        return Failure(PromoInvalid(b.issue));
      }
      var code := if promo.Some? then Some(promo.value.id) else None;
      verdict := Success(Order(Some(req.user), Pending, Unpaid, req.how, req.currency, b.totals, code, ItemsOf(lines),
                               [Pending], Nat(prior)));
    }

    method CreateOrder(req: Request) returns (reply: Reply)
      modifies this
      ensures Outcome(State(), reply) == Transactions.CreateOrder(old(State()), req)
      ensures old(Valid()) ==> Valid()
    {
      if Valid() {
        Ledger.CheckoutKeeps(State(), req, Read(State(), req));
      }
      var verdict := JudgeOrder(req);
      if verdict.Failure? {
        return Refused(verdict.error);
      }
      var order := verdict.value;
      if order.promo.Some? && UsedBy(redemptions, order.promo.value, req.user) {
        return Refused(RedemptionConflict);
      }
      WriteOrder(req.user, order);
      reply := Placed(|orders| - 1);
    }

    /** The write half of a checkout. */
    method WriteOrder(user: nat, o: Order)
      modifies this
      ensures State() == Publish(old(State()), user, o)
    {
      TakeStock(o.items);
      CountSales(o.items);
      if o.promo.Some? {
        redemptions := redemptions[|orders| := Redemption(o.promo.value, user)];
      }
      orders := orders + [o];
      carts := carts[user := []];
      cartPromo := cartPromo - {user};
    }

    /** Gives the reserved units back, one shelf row at a time. */
    method RestoreStock(items: seq<Item>)
      modifies this`stock
      ensures stock == StockRestored(old(stock), items)
    {
      var todo := stock.Keys;
      while todo != {}
        invariant stock.Keys == old(stock).Keys
        invariant forall v | v in stock ::
                    stock[v] == old(stock)[v] + if v in todo then 0 else RestoredQty(items, v)
        decreases |todo|
      {
        var v :| v in todo;
        todo := todo - {v};
        if v in stock {
          stock := stock[v := stock[v] + RestoredQty(items, v)];
        }
      }
    }

    /** The write half shared by the admin's and the customer's door. */
    method ApplyStatus(id: nat, to: Status)
      requires id < |orders|
      modifies this
      ensures State() == WithStatus(old(State()), id, to)
    {
      var o := orders[id].(status := to, events := orders[id].events + [to]);
      if to == Cancelled {
        RestoreStock(o.items);
        redemptions := redemptions - {id};
      }
      if to == Delivered && SettlesOnDelivery(o.how) && o.payment == Unpaid {
        o := o.(payment := Paid);
      }
      orders := orders[id := o];
    }

    method UpdateOrderStatus(id: nat, to: Status) returns (reply: Reply)
      modifies this
      ensures Outcome(State(), reply) == Transactions.UpdateOrderStatus(old(State()), id, to)
      ensures old(Valid()) ==> Valid()
    {
      if Valid() {
        Ledger.StatusKeeps(State(), id, to);
      }
      if id >= |orders| {
        return Refused(NotFound);
      }
      if !ValidTransition(orders[id].status, to) {
        return Refused(InvalidTransition);
      }
      ApplyStatus(id, to);
      reply := Done;
    }

    method CancelOrderByCustomer(user: nat, id: nat) returns (reply: Reply)
      modifies this
      ensures Outcome(State(), reply) == Transactions.CancelOrderByCustomer(old(State()), user, id)
      ensures old(Valid()) ==> Valid()
    {
      if Valid() {
        Ledger.CancelKeeps(State(), user, id);
      }
      if id >= |orders| {
        return Refused(NotFound);
      }
      if orders[id].user != Some(user) {
        return Refused(NotFound);
      }
      if !CustomerMayCancel(orders[id].status) {
        return Refused(TooLateToCancel);
      }
      ApplyStatus(id, Cancelled);
      reply := Done;
    }

    method UpdatePaymentStatus(id: nat, to: PaymentStatus) returns (reply: Reply)
      modifies this`orders
      ensures Outcome(State(), reply) == Transactions.UpdatePaymentStatus(old(State()), id, to)
      ensures old(Valid()) ==> Valid()
    {
      if Valid() {
        Ledger.PaymentKeeps(State(), id, to);
      }
      if id >= |orders| {
        return Refused(NotFound);
      }
      if !ValidPayment(orders[id].payment, to) {
        return Refused(InvalidTransition);
      }
      orders := orders[id := orders[id].(payment := to)];
      reply := Done;
    }

    /** What becomes of one line of an old order, given how much of it the cart holds already. */
    method MergeItem(item: Item, inCart: int) returns (out: MergeLine)
      ensures out == MergedInto(State(), item, inCart)
    {
      var room := Min(At(stock, item.variant), MAX_CART_LINE) - inCart;
      out := MergeLine(item.variant, 0, AddedInFull);
      if ProductOf(catalog.productOf, item.variant) !in catalog.active {
        return out.(issue := Unavailable);
      }
      if room <= 0 {
        return out.(issue := OutOfStock);
      }
      out := out.(qty := Min(item.qty, room));
      if out.qty < item.qty {
        out := out.(issue := Reduced);
      }
    }

    /** Every line of an old order against the cart as it was, collecting the report. */
    method MergeAll(user: nat, items: seq<Item>) returns (lines: seq<MergeLine>, cart: seq<CartLine>)
      ensures lines == MergeLines(State(), user, items)
      ensures cart == AddLines(CartOf(State(), user), lines)
    {
      ghost var s := State();
      var before := if user in carts then carts[user] else [];
      cart := before;
      lines := [];
      for i := 0 to |items|
        invariant |lines| == i && State() == s
        invariant forall k | 0 <= k < i :: lines[k] == MergeLineOf(s, user, items[k])
        invariant cart == AddLines(before, lines)
      {
        var item := items[i];
        var out := MergeItem(item, QtyInCart(before, item.variant));
        assert out == MergeLineOf(s, user, item);
        AddLinesSnoc(before, lines, out);
        if out.issue !in {Unavailable, OutOfStock} {
          cart := SetLine(cart, item.variant, QtyInCart(cart, item.variant) + out.qty);
        }
        lines := lines + [out];
      }
      assert lines == MergeLines(State(), user, items);
    }

    /** Merges an order's lines back into the cart, reporting each line's fate. */
    method Reorder(user: nat, id: nat) returns (reply: Reply)
      modifies this`carts
      ensures Outcome(State(), reply) == Transactions.Reorder(old(State()), user, id)
      ensures old(Valid()) ==> Valid()
    {
      if Valid() {
        Ledger.ReorderKeeps(State(), user, id);
      }
      if id >= |orders| {
        return Refused(NotFound);
      }
      var owner := orders[id].user;
      if owner.None? {
        return Refused(InternalError);
      }
      if owner.value != user {
        return Refused(NotFound);
      }
      var lines, cart := MergeAll(user, orders[id].items);
      carts := carts[user := cart];
      reply := Merged(lines);
    }

    method SetCartItem(user: nat, variant: nat, qty: int) returns (reply: Reply)
      modifies this`carts
      ensures Outcome(State(), reply) == Transactions.SetCartItem(old(State()), user, variant, qty)
      ensures old(Valid()) ==> Valid()
    {
      if Valid() {
        Ledger.SetCartItemKeeps(State(), user, variant, qty);
      }
      if variant !in stock {
        return Refused(NotFound);
      }
      if qty <= 0 {
        return Refused(CheckViolation);
      }
      var cart := if user in carts then carts[user] else [];
      carts := carts[user := SetLine(cart, variant, qty)];
      reply := Done;
    }

    method SetCartPromo(user: nat, code: nat) returns (reply: Reply)
      modifies this`cartPromo
      ensures Outcome(State(), reply) == Transactions.SetCartPromo(old(State()), user, code)
      ensures old(Valid()) ==> Valid()
    {
      if code !in promos {
        return Refused(NotFound);
      }
      cartPromo := cartPromo[user := code];
      reply := Done;
    }

    method DeleteCartItem(user: nat, variant: nat) returns (reply: Reply)
      modifies this`carts
      ensures Outcome(State(), reply) == Transactions.DeleteCartItem(old(State()), user, variant)
      ensures old(Valid()) ==> Valid()
    {
      if Valid() {
        Ledger.DeleteCartItemKeeps(State(), user, variant);
      }
      var cart := if user in carts then carts[user] else [];
      carts := carts[user := DropLine(cart, variant)];
      reply := Done;
    }

    method ClearCartPromo(user: nat) returns (reply: Reply)
      modifies this`cartPromo
      ensures Outcome(State(), reply) == Transactions.ClearCartPromo(old(State()), user)
      ensures old(Valid()) ==> Valid()
    {
      cartPromo := cartPromo - {user};
      reply := Done;
    }

    method CreatePromo(code: nat, rules: Promo) returns (reply: Reply)
      modifies this`promos
      ensures Outcome(State(), reply) == Transactions.CreatePromo(old(State()), code, rules)
      ensures old(Valid()) ==> Valid()
    {
      if code in promos || TextTaken(promos, rules.text, code) {
        return Refused(CodeTaken);
      }
      promos := promos[code := rules];
      reply := Done;
    }

    method UpdatePromo(code: nat, rules: Promo) returns (reply: Reply)
      modifies this`promos
      ensures Outcome(State(), reply) == Transactions.UpdatePromo(old(State()), code, rules)
      ensures old(Valid()) ==> Valid()
    {
      if code !in promos {
        return Refused(NotFound);
      }
      if TextTaken(promos, rules.text, code) {
        return Refused(CodeTaken);
      }
      promos := promos[code := rules];
      reply := Done;
    }

    method SetStock(variant: nat, qty: int) returns (reply: Reply)
      modifies this`stock, this`supplied
      ensures Outcome(State(), reply) == Transactions.SetStock(old(State()), variant, qty)
      ensures old(Valid()) ==> Valid()
    {
      ghost var s := State();
      if Valid() {
        Ledger.ShelveKeeps(s, variant, qty);
      }
      if variant !in stock {
        return Refused(NotFound);
      }
      if qty < 0 {
        return Refused(CheckViolation);
      }
      Recount(variant, qty);
      Recounted(s, variant, qty, State());
      reply := Done;
    }

    /** The count is overwritten; the difference is what was put on the shelf or taken off it. */
    method Recount(variant: nat, qty: int)
      requires variant in stock
      modifies this`stock, this`supplied
      ensures stock == old(stock)[variant := qty]
      ensures supplied == old(supplied)[variant := At(old(supplied), variant) + qty - old(stock)[variant]]
    {
      supplied := supplied[variant := At(supplied, variant) + qty - stock[variant]];
      stock := stock[variant := qty];
    }

    /**
     * One transaction over both tables: the account goes, unless it does not exist or is the last
     * admin; its orders are detached one by one, and the rows that hang off it go with it.
     */
    method DeleteAccount(users: Admins.Users, user: nat) returns (reply: Reply)
      modifies this, users
      ensures reply == if user !in old(users.roles) then Refused(NotFound)
                       else if Admins.AdminsOf(old(users.roles)) == {user} then Refused(LastAdminStays)
                       else Done
      ensures users.roles == if reply == Done then old(users.roles) - {user} else old(users.roles)
      ensures State() == if reply == Done then Transactions.DeleteAccount(old(State()), user).shop else old(State())
      ensures old(Valid()) ==> Valid()
    {
      var outcome := users.DeleteAccount(user);
      match outcome {
        case NotFound => reply := Refused(NotFound);
        case LastAdmin => reply := Refused(LastAdminStays);
        case Done =>
          DetachAccount(user);
          reply := Done;
      }
    }

    method DetachAccount(user: nat)
      modifies this
      ensures State() == Transactions.DeleteAccount(old(State()), user).shop
      ensures old(Valid()) ==> Valid()
    {
      if Valid() {
        Ledger.CloseAccountKeeps(State(), user);
      }
      for i := 0 to |orders|
        invariant |orders| == |old(orders)|
        invariant forall k | 0 <= k < i :: orders[k] == Detached(old(orders)[k], user)
        invariant orders[i..] == old(orders)[i..]
        invariant State() == old(State()).(orders := orders)
      {
        assert orders[i] == orders[i..][0];
        if orders[i].user == Some(user) {
          orders := orders[i := orders[i].(user := None)];
        }
      }
      assert orders == DetachAll(old(orders), user);
      redemptions := map i | i in redemptions && redemptions[i].user != user :: redemptions[i];
      carts := carts - {user};
      cartPromo := cartPromo - {user};
    }
  }
}
