/**
 * What a run can never take back: the frozen record of an order, its timeline,
 * the money it has received, a cancellation, a redemption cap
 * (backend/internal/store/orders.go, promos.go).
 */
module History {
  import opened Wrappers
  import opened Pricing
  import opened Lifecycle
  import opened Transactions
  import opened Sorting
  import opened Ledger

  // ----- Orders only grow -------------------------------------------------------------

  /** b is a later sight of the order a. */
  ghost predicate OrderGrew(a: Order, b: Order) {
    && b.items == a.items && b.totals == a.totals && b.promo == a.promo
    && b.currency == a.currency && b.how == a.how && b.prior == a.prior
    && (b.user == a.user || b.user.None?)
    && a.events <= b.events
    && PaymentRank(a.payment) <= PaymentRank(b.payment)
  }

  ghost predicate Grew(s: Shop, s': Shop) {
    && |s.orders| <= |s'.orders|
    && forall i | 0 <= i < |s.orders| :: OrderGrew(s.orders[i], s'.orders[i])
  }

  lemma StatusGrows(s: Shop, id: nat, to: Status)
    requires id < |s.orders|
    ensures Grew(s, WithStatus(s, id, to))
  {
    assert OrderGrew(s.orders[id], Advanced(s.orders[id], to));
  }

  lemma PaymentGrows(s: Shop, id: nat, to: PaymentStatus)
    ensures Grew(s, UpdatePaymentStatus(s, id, to).shop)
  {
    if id < |s.orders| {
      PaymentMovesForward(s.orders[id].payment, to);
    }
  }

  lemma CheckoutGrows(s: Shop, req: Request)
    ensures Grew(s, CreateOrder(s, req).shop)
  {
    CheckoutShape(s, req);
  }

  lemma CartOpShape(s: Shop, op: Op)
    requires op.PutInCart? || op.TakeFromCart? || op.Again?
    ensures Apply(s, op).shop == s.(carts := Apply(s, op).shop.carts)
  {
    match op {
      case PutInCart(user, variant, qty) => PutShape(s, user, variant, qty);
      case TakeFromCart(user, variant) => assert Apply(s, op) == DeleteCartItem(s, user, variant);
      case Again(user, id) => ReorderShape(s, user, id);
    }
  }

  lemma PutShape(s: Shop, user: nat, variant: nat, qty: int)
    ensures SetCartItem(s, user, variant, qty).shop == s.(carts := SetCartItem(s, user, variant, qty).shop.carts)
  {
  }

  lemma CodeOpShape(s: Shop, op: Op)
    requires op.ApplyCode? || op.RemoveCode? || op.AddPromo? || op.EditPromo?
    ensures
      var s' := Apply(s, op).shop;
      s' == s.(cartPromo := s'.cartPromo, promos := s'.promos)
      && (op.ApplyCode? || op.RemoveCode? ==> s'.promos == s.promos)
  {
  }

  lemma StockOpShape(s: Shop, op: Op)
    requires op.Shelve? || op.Reprice?
    ensures
      var s' := Apply(s, op).shop;
      s' == s.(catalog := s'.catalog, stock := s'.stock, supplied := s'.supplied)
      && s'.catalog.productOf == s.catalog.productOf
  {
  }

  /** No order, redemption or counter moves. */
  ghost predicate ShelfOnly(s: Shop, s': Shop) {
    && s'.orders == s.orders && s'.redemptions == s.redemptions && s'.sales == s.sales
    && s'.catalog.productOf == s.catalog.productOf
  }

  /** Carts, codes, shelf and prices. */
  lemma ShelfOpShape(s: Shop, op: Op)
    requires !OrderOp(op)
    ensures ShelfOnly(s, Apply(s, op).shop)
    ensures !op.EditPromo? && !op.AddPromo? ==> Apply(s, op).shop.promos == s.promos
  {
    if op.PutInCart? || op.TakeFromCart? || op.Again? {
      CartOpShape(s, op);
    } else if op.Shelve? || op.Reprice? {
      StockOpShape(s, op);
    } else {
      CodeOpShape(s, op);
    }
  }

  lemma DetachGrows(s: Shop, user: nat)
    ensures Grew(s, DeleteAccount(s, user).shop)
  {
  }

  lemma OrderOpGrows(s: Shop, op: Op)
    requires OrderOp(op) && !op.Checkout?
    ensures Grew(s, Apply(s, op).shop)
  {
    match op {
      case Advance(id, to) =>
        if id < |s.orders| {
          StatusGrows(s, id, to);
        }
      case CustomerCancel(user, id) =>
        if id < |s.orders| {
          StatusGrows(s, id, Cancelled);
        }
      case Pay(id, payment) => PaymentGrows(s, id, payment);
      case CloseAccount(user) => DetachGrows(s, user);
    }
  }

  lemma ApplyGrows(s: Shop, op: Op)
    ensures Grew(s, Apply(s, op).shop)
  {
    if op.Checkout? {
      CheckoutGrows(s, op.req);
    } else if OrderOp(op) {
      OrderOpGrows(s, op);
    } else {
      ShelfOpShape(s, op);
    }
  }

  lemma GrewTransitively(a: Shop, b: Shop, c: Shop)
    requires Grew(a, b) && Grew(b, c)
    ensures Grew(a, c)
  {
    forall i | 0 <= i < |a.orders|
      ensures OrderGrew(a.orders[i], c.orders[i])
    {
      assert OrderGrew(a.orders[i], b.orders[i]);
    }
  }

  /**
   * However long the shop runs, an order keeps its place and its figures, its
   * timeline is only appended to, and its payment never moves back.
   */
  lemma {:induction false} RunGrows(s: Shop, ops: seq<Op>)
    ensures Grew(s, Run(s, ops))
  {
    if ops != [] {
      var before := Run(s, ops[..|ops| - 1]);
      RunGrows(s, ops[..|ops| - 1]);
      ApplyGrows(before, ops[|ops| - 1]);
      GrewTransitively(s, before, Run(s, ops));
    }
  }

  lemma FinalEntry(a: seq<Status>, b: seq<Status>)
    requires ValidHistory(a) && ValidHistory(b) && a <= b && NextStatuses(a[|a| - 1]) == []
    ensures a == b
  {
    var n := |a|;
    assert b[n - 1] == a[n - 1];
    assert n < |b| ==> ValidTransition(b[n - 1], b[n]);
  }

  /** Delivered and cancelled are final: no run adds another step to such a timeline. */
  lemma FinalForGood(s: Shop, ops: seq<Op>, id: nat)
    requires BooksSound(s) && id < |s.orders| && NextStatuses(s.orders[id].status) == []
    ensures id < |Run(s, ops).orders|
    ensures Run(s, ops).orders[id].events == s.orders[id].events
    ensures Run(s, ops).orders[id].status == s.orders[id].status
  {
    OrderAfterRun(s, ops, id);
    FinalOrder(s.orders[id], Run(s, ops).orders[id]);
  }

  lemma FinalOrder(a: Order, b: Order)
    requires OrderGrew(a, b) && TimelineSound(a) && TimelineSound(b) && NextStatuses(a.status) == []
    ensures b.events == a.events && b.status == a.status
  {
    FinalEntry(a.events, b.events);
  }

  lemma OrderAfterRun(s: Shop, ops: seq<Op>, id: nat)
    requires BooksSound(s) && id < |s.orders|
    ensures id < |Run(s, ops).orders| && OrderGrew(s.orders[id], Run(s, ops).orders[id])
    ensures TimelineSound(s.orders[id]) && TimelineSound(Run(s, ops).orders[id])
  {
    RunGrows(s, ops);
    RunKeeps(s, ops);
    TimelineIn(s, id);
    TimelineIn(Run(s, ops), id);
  }

  lemma TimelineIn(s: Shop, id: nat)
    requires BooksSound(s) && id < |s.orders|
    ensures TimelineSound(s.orders[id])
  {
  }

  /** In every reachable state a timeline has at most three steps after the placing. */
  lemma TimelineBounded(s: Shop, ops: seq<Op>, id: nat)
    requires BooksSound(s) && id < |Run(s, ops).orders|
    ensures
      var o := Run(s, ops).orders[id];
      && ValidHistory(o.events)
      && o.events[|o.events| - 1] == o.status
      && 1 <= |o.events| <= 4
      && (o.status == Delivered && o.how == CashOnDelivery ==> o.payment != Unpaid)
  {
    RunKeeps(s, ops);
    HistoryBounded(Run(s, ops).orders[id].events);
  }

  // ----- Cancelling -------------------------------------------------------------------

  /** A cancellation puts back exactly the order's quantities and frees exactly its redemption. */
  lemma CancelUndoesTheOrder(s: Shop, id: nat)
    requires BooksSound(s) && id < |s.orders| && ValidTransition(s.orders[id].status, Cancelled)
    ensures
      var s' := UpdateOrderStatus(s, id, Cancelled).shop;
      && (forall v | v in s.stock :: v in s'.stock && s'.stock[v] == s.stock[v] + QtyOf(s.orders[id].items, v))
      && s'.redemptions == s.redemptions - {id}
      && s'.sales == s.sales && s'.carts == s.carts
  {
    forall v {
      RestoreIsExact(s.orders[id].items, v);
    }
  }

  /** Restored once: after a cancellation, no later request of any run restores it again. */
  lemma CancelledOnce(s: Shop, ops: seq<Op>, id: nat, user: nat)
    requires BooksSound(s) && id < |s.orders| && s.orders[id].status == Cancelled
    ensures UpdateOrderStatus(Run(s, ops), id, Cancelled) == Outcome(Run(s, ops), Refused(InvalidTransition))
    ensures CancelOrderByCustomer(Run(s, ops), user, id).shop == Run(s, ops)
  {
    FinalForGood(s, ops, id);
  }

  lemma PublishThenCancel(s: Shop, user: nat, o: Order)
    requires UniqueItems(o.items) && (forall i | i in s.redemptions :: i < |s.orders|)
    ensures
      var undone := WithStatus(Publish(s, user, o), |s.orders|, Cancelled);
      && undone.stock == s.stock
      && undone.redemptions == s.redemptions
      && undone.orders == s.orders + [Advanced(o, Cancelled)]
  {
    var placed, id := Publish(s, user, o), |s.orders|;
    assert placed.orders[id] == o;
    forall v | v in s.stock
      ensures placed.stock[v] + RestoredQty(o.items, v) == s.stock[v]
    {
      RestoreIsExact(o.items, v);
    }
  }

  lemma CancelsFresh(s: Shop, user: nat, o: Order)
    requires o.user == Some(user) && o.status == Pending
    ensures CancelOrderByCustomer(Publish(s, user, o), user, |s.orders|)
            == Outcome(WithStatus(Publish(s, user, o), |s.orders|, Cancelled), Done)
  {
    assert Publish(s, user, o).orders[|s.orders|] == o;
  }

  lemma PlacedIsCancellable(s: Shop, req: Request)
    requires BooksSound(s) && CreateOrder(s, req).reply.Placed?
    ensures NewOrder(s, req).Some?
    ensures
      var o := NewOrder(s, req).value;
      && CreateOrder(s, req).shop == Publish(s, req.user, o)
      && CancelOrderByCustomer(Publish(s, req.user, o), req.user, |s.orders|)
         == Outcome(WithStatus(Publish(s, req.user, o), |s.orders|, Cancelled), Done)
      && UniqueItems(o.items) && (forall i | i in s.redemptions :: i < |s.orders|)
  {
    CheckoutShape(s, req);
    CheckoutKeeps(s, req, Read(s, req));
    var o := NewOrder(s, req).value;
    CheckoutIsFresh(s, req, Read(s, req), o);
    CancelsFresh(s, req.user, o);
  }

  /** Placing and cancelling at once gives the shelf, the codes and the other orders back as they were. */
  lemma PlaceThenCancel(s: Shop, req: Request)
    requires BooksSound(s) && CreateOrder(s, req).reply.Placed?
    ensures
      var placed := CreateOrder(s, req).shop;
      var undone := CancelOrderByCustomer(placed, req.user, |s.orders|);
      && undone.reply == Done
      && undone.shop.stock == s.stock
      && undone.shop.redemptions == s.redemptions
      && undone.shop.orders[..|s.orders|] == s.orders
      && PriorOrders(undone.shop, req.user) == PriorOrders(s, req.user)
  {
    var o := NewOrder(s, req).value;
    PlacedIsCancellable(s, req);
    PublishThenCancel(s, req.user, o);
    TallySnoc(s.orders, Advanced(o, Cancelled), LiveOf(req.user));
  }

  // ----- Codes ------------------------------------------------------------------------

  /** The once-per-customer index never has to refuse a checkout that saw its customer's own redemptions. */
  lemma ConflictUnreachable(s: Shop, req: Request, v: View)
    requires v.promo.Some? ==> v.promo.value.usedByShopper == UsedBy(s.redemptions, v.promo.value.id, req.user)
    ensures Settle(s, req, v).reply != Refused(RedemptionConflict)
  {
    ProblemKind(v.lines);
    DecisionKind(v, req);
  }

  lemma {:induction false} ProblemKind(lines: seq<LineView>)
    ensures FirstProblem(lines).Some? ==>
              FirstProblem(lines).value.PriceUnavailable? || FirstProblem(lines).value.StockShort?
  {
    if lines != [] {
      ProblemKind(lines[..|lines| - 1]);
    }
  }

  lemma DecisionKind(v: View, req: Request)
    ensures Decide(v, req) != Failure(RedemptionConflict)
    ensures Decide(v, req).Success? && v.promo.Some? ==> !v.promo.value.usedByShopper
  {
    ProblemKind(v.lines);
  }

  predicate CapFits(rules: Promo, redeemed: nat) {
    rules.maxRedemptions.Some? ==> redeemed <= rules.maxRedemptions.value
  }

  /** A code's redemptions are within its cap; a code that does not exist has none. */
  ghost predicate CapHolds(s: Shop, code: nat) {
    var redeemed := |RedemptionsOf(s.redemptions, code)|;
    if code in s.promos then CapFits(s.promos[code], redeemed) else redeemed == 0
  }

  /** Rules that take effect with a cap under the redemptions the code already has. */
  ghost predicate Undercuts(s: Shop, op: Op, code: nat) {
    && (op.EditPromo? || op.AddPromo?) && op.code == code && Apply(s, op).reply == Done
    && !CapFits(op.rules, |RedemptionsOf(s.redemptions, code)|)
  }

  lemma FewerRedemptions(s: Shop, rows: map<nat, Redemption>, code: nat)
    requires forall i | i in rows :: i in s.redemptions && rows[i] == s.redemptions[i]
    ensures |RedemptionsOf(rows, code)| <= |RedemptionsOf(s.redemptions, code)|
  {
    SubsetSize(RedemptionsOf(rows, code), RedemptionsOf(s.redemptions, code));
  }

  lemma PublishKeepsCap(s: Shop, user: nat, o: Order, code: nat)
    requires forall i | i in s.redemptions :: i < |s.orders|
    requires CapHolds(s, code)
    requires o.promo == Some(code) ==>
               code in s.promos && CapFits(s.promos[code], |RedemptionsOf(s.redemptions, code)| + 1)
    ensures CapHolds(Publish(s, user, o), code)
  {
    var before, after := s.redemptions, Publish(s, user, o).redemptions;
    if o.promo == Some(code) {
      assert RedemptionsOf(after, code) == RedemptionsOf(before, code) + {|s.orders|};
    } else {
      assert RedemptionsOf(after, code) == RedemptionsOf(before, code);
    }
  }

  lemma CheckoutKeepsCap(s: Shop, req: Request, code: nat)
    requires BooksSound(s) && CapHolds(s, code)
    ensures CapHolds(CreateOrder(s, req).shop, code)
  {
    CheckoutShape(s, req);
    if NewOrder(s, req).Some? {
      NewOrderPromo(s, req);
      PublishKeepsCap(s, req.user, NewOrder(s, req).value, code);
    }
  }

  ghost predicate NoNewRedemptions(s: Shop, s': Shop) {
    && s'.promos == s.promos
    && forall i | i in s'.redemptions :: i in s.redemptions && s'.redemptions[i] == s.redemptions[i]
  }

  lemma StatusRedeemsNothing(s: Shop, id: nat, to: Status)
    requires id < |s.orders|
    ensures NoNewRedemptions(s, WithStatus(s, id, to))
  {
  }

  lemma DetachRedeemsNothing(s: Shop, user: nat)
    ensures NoNewRedemptions(s, DeleteAccount(s, user).shop)
  {
  }

  lemma PaymentShape(s: Shop, id: nat, to: PaymentStatus)
    ensures UpdatePaymentStatus(s, id, to).shop == s.(orders := UpdatePaymentStatus(s, id, to).shop.orders)
  {
    if id < |s.orders| && ValidPayment(s.orders[id].payment, to) {
      assert UpdatePaymentStatus(s, id, to).shop == s.(orders := s.orders[id := s.orders[id].(payment := to)]);
    }
  }

  /** Nothing but a checkout adds a redemption row, and nothing but an edit touches a cap. */
  lemma OtherStepsShrink(s: Shop, op: Op)
    requires !op.Checkout? && !op.EditPromo? && !op.AddPromo?
    ensures NoNewRedemptions(s, Apply(s, op).shop)
  {
    match op {
      case Advance(id, to) =>
        if id < |s.orders| {
          StatusRedeemsNothing(s, id, to);
        }
      case CustomerCancel(_, id) =>
        if id < |s.orders| {
          StatusRedeemsNothing(s, id, Cancelled);
        }
      case Pay(id, payment) => PaymentShape(s, id, payment);
      case CloseAccount(user) => DetachRedeemsNothing(s, user);
      case _ => ShelfOpShape(s, op);
    }
  }

  lemma OtherStepsKeepCap(s: Shop, op: Op, code: nat)
    requires CapHolds(s, code) && !op.Checkout? && !op.EditPromo? && !op.AddPromo?
    ensures CapHolds(Apply(s, op).shop, code)
  {
    OtherStepsShrink(s, op);
    FewerRedemptions(s, Apply(s, op).shop.redemptions, code);
  }

  lemma RulesCap(s: Shop, rules: Promo, code: nat, edited: nat)
    requires CapHolds(s, code)
    ensures
      var s' := s.(promos := s.promos[edited := rules]);
      CapHolds(s', code) <==> edited != code || CapFits(rules, |RedemptionsOf(s.redemptions, code)|)
  {
  }

  lemma AddPromoCap(s: Shop, op: Op, code: nat)
    requires CapHolds(s, code) && op.AddPromo?
    ensures CapHolds(Apply(s, op).shop, code) <==> !Undercuts(s, op, code)
  {
    RulesCap(s, op.rules, code, op.code);
  }

  lemma EditPromoCap(s: Shop, op: Op, code: nat)
    requires CapHolds(s, code) && op.EditPromo?
    ensures CapHolds(Apply(s, op).shop, code) <==> !Undercuts(s, op, code)
  {
    RulesCap(s, op.rules, code, op.code);
  }

  /** One step keeps a code within its cap exactly when it is not an edit that undercuts it. */
  lemma CapStep(s: Shop, op: Op, code: nat)
    requires BooksSound(s) && CapHolds(s, code)
    ensures CapHolds(Apply(s, op).shop, code) <==> !Undercuts(s, op, code)
  {
    if op.Checkout? {
      CheckoutKeepsCap(s, op.req, code);
    } else if op.AddPromo? {
      AddPromoCap(s, op, code);
    } else if op.EditPromo? {
      EditPromoCap(s, op, code);
    } else {
      OtherStepsKeepCap(s, op, code);
    }
  }

  /** No step of the run is an edit that sets the code's cap below what it has been redeemed by then. */
  ghost predicate NeverUndercuts(s: Shop, ops: seq<Op>, code: nat) {
    ops == [] ||
    var front, last := ops[..|ops| - 1], ops[|ops| - 1];
    NeverUndercuts(s, front, code) && !Undercuts(Run(s, front), last, code)
  }

  /** Over any run in which no edit undercuts the code, its live redemptions stay within its cap. */
  lemma {:induction false} CapOverRuns(s: Shop, ops: seq<Op>, code: nat)
    requires BooksSound(s) && CapHolds(s, code) && NeverUndercuts(s, ops, code)
    ensures CapHolds(Run(s, ops), code)
  {
    if ops != [] {
      var front := ops[..|ops| - 1];
      CapOverRuns(s, front, code);
      RunKeeps(s, front);
      CapStep(Run(s, front), ops[|ops| - 1], code);
    }
  }

  ghost predicate TextsDistinct(promos: map<nat, Promo>) {
    forall a, b | a in promos && b in promos && promos[a].text == promos[b].text :: a == b
  }

  lemma TextsWith(promos: map<nat, Promo>, code: nat, rules: Promo)
    requires TextsDistinct(promos) && !TextTaken(promos, rules.text, code)
    ensures TextsDistinct(promos[code := rules])
  {
  }

  lemma ApplyKeepsTexts(s: Shop, op: Op)
    requires TextsDistinct(s.promos)
    ensures TextsDistinct(Apply(s, op).shop.promos)
  {
    if op.Checkout? {
      CheckoutShape(s, op.req);
    } else if op.AddPromo? || op.EditPromo? {
      if Apply(s, op).reply == Done {
        TextsWith(s.promos, op.code, op.rules);
      }
    } else {
      OtherStepsShrink(s, op);
    }
  }

  /** No run ever leaves two codes with one text: what a customer types names at most one. */
  lemma {:induction false} TextsStayDistinct(s: Shop, ops: seq<Op>)
    requires TextsDistinct(s.promos)
    ensures TextsDistinct(Run(s, ops).promos)
  {
    if ops != [] {
      TextsStayDistinct(s, ops[..|ops| - 1]);
      ApplyKeepsTexts(Run(s, ops[..|ops| - 1]), ops[|ops| - 1]);
    }
  }

  // ----- Member perks -----------------------------------------------------------------

  /**
   * Of an account's live orders at most one was priced as a first order, and
   * every other carries exactly eight per cent of its subtotal.
   */
  lemma OneFirstOrder(s: Shop, ops: seq<Op>, i: nat, j: nat)
    requires BooksSound(s) && i < |Run(s, ops).orders| && j < |Run(s, ops).orders| && i != j
    requires
      var orders := Run(s, ops).orders;
      Live(orders[i]) && Live(orders[j]) && orders[i].user.Some? && orders[i].user == orders[j].user
    ensures
      var orders := Run(s, ops).orders;
      || orders[i].totals.member == PercentOf(orders[i].totals.subtotal, 8)
      || orders[j].totals.member == PercentOf(orders[j].totals.subtotal, 8)
    ensures
      var orders := Run(s, ops).orders;
      && (orders[i].prior == 0 ==> orders[j].prior >= 1)
      && (orders[j].prior >= 1 ==> orders[j].totals.member == PercentOf(orders[j].totals.subtotal, 8))
  {
    RunKeeps(s, ops);
  }

  // ----- Popularity -------------------------------------------------------------------

  /** A product's counter less everything its orders ever sold; cancelled orders stay counted. */
  function SalesDrift(s: Shop, product: nat): int {
    At(s.sales, product) - Tally(s.orders, SoldBy(s.catalog.productOf, product))
  }

  ghost predicate SoldNothing(s: Shop, s': Shop) {
    && s'.sales == s.sales
    && s'.catalog.productOf == s.catalog.productOf
    && ItemsKept(s.orders, s'.orders)
  }

  lemma StatusSellsNothing(s: Shop, id: nat, to: Status)
    requires id < |s.orders|
    ensures SoldNothing(s, WithStatus(s, id, to))
  {
  }

  lemma PaymentSellsNothing(s: Shop, id: nat, to: PaymentStatus)
    ensures SoldNothing(s, UpdatePaymentStatus(s, id, to).shop)
  {
    PaymentShape(s, id, to);
    PaymentKeepsItems(s, id, to);
    SameItems(s, UpdatePaymentStatus(s, id, to).shop.orders);
  }

  ghost predicate ItemsKept(a: seq<Order>, b: seq<Order>) {
    |b| == |a| && forall i | 0 <= i < |a| :: b[i].items == a[i].items
  }

  lemma SameItems(s: Shop, orders: seq<Order>)
    requires ItemsKept(s.orders, orders)
    ensures SoldNothing(s, s.(orders := orders))
  {
  }

  lemma PaymentKeepsItems(s: Shop, id: nat, to: PaymentStatus)
    ensures ItemsKept(s.orders, UpdatePaymentStatus(s, id, to).shop.orders)
  {
  }

  lemma DetachSellsNothing(s: Shop, user: nat)
    ensures SoldNothing(s, DeleteAccount(s, user).shop)
  {
  }

  lemma OtherStepsSellNothing(s: Shop, op: Op)
    requires !op.Checkout?
    ensures SoldNothing(s, Apply(s, op).shop)
  {
    match op {
      case Advance(id, to) =>
        if id < |s.orders| {
          StatusSellsNothing(s, id, to);
        }
      case CustomerCancel(_, id) =>
        if id < |s.orders| {
          StatusSellsNothing(s, id, Cancelled);
        }
      case Pay(id, payment) => PaymentSellsNothing(s, id, payment);
      case CloseAccount(user) => DetachSellsNothing(s, user);
      case _ => ShelfOpShape(s, op);
    }
  }

  lemma ApplyKeepsSales(s: Shop, op: Op, product: nat)
    requires product in s.sales
    ensures product in Apply(s, op).shop.sales
    ensures SalesDrift(Apply(s, op).shop, product) == SalesDrift(s, product)
  {
    if op.Checkout? {
      CheckoutShape(s, op.req);
      if NewOrder(s, op.req).Some? {
        TallySnoc(s.orders, NewOrder(s, op.req).value, SoldBy(s.catalog.productOf, product));
      }
    } else {
      OtherStepsSellNothing(s, op);
      TallySame(s.orders, Apply(s, op).shop.orders, SoldBy(s.catalog.productOf, product));
    }
  }

  /** No run ever lets a sales counter disagree with the orders that moved it. */
  lemma {:induction false} DriftStays(s: Shop, ops: seq<Op>, product: nat)
    requires product in s.sales
    ensures product in Run(s, ops).sales
    ensures SalesDrift(Run(s, ops), product) == SalesDrift(s, product)
  {
    if ops != [] {
      DriftStays(s, ops[..|ops| - 1], product);
      ApplyKeepsSales(Run(s, ops[..|ops| - 1]), ops[|ops| - 1], product);
    }
  }
}
