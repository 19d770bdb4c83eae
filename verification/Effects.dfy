/**
 * Which transaction moves which table, and by how much: for every table an exact
 * law over all the transactions, said of the rows themselves
 * (backend/internal/store/orders.go, cart.go, promos.go, products_admin.go,
 * users.go).
 */
module Effects {
  import opened Wrappers
  import opened Money
  import Pricing
  import opened Lifecycle
  import opened Transactions
  import opened Sorting
  import opened Ledger
  import opened History

  // ----- Orders -------------------------------------------------------------------------

  /** A parcel goes pending, confirmed, shipped, delivered, and can be called off until it is shipped. */
  predicate ParcelStep(from: Status, to: Status) {
    || (from == Pending && to == Confirmed) || (from == Confirmed && to == Shipped) || (from == Shipped && to == Delivered)
    || (to == Cancelled && (from == Pending || from == Confirmed))
  }

  /** Where the step moves the order: the shop along the parcel's way, or its owner calling it off before it is confirmed. */
  function MovesTo(s: Shop, op: Op, id: nat): Option<Status>
    requires id < |s.orders|
  {
    var o := s.orders[id];
    match op
    case Advance(at, to) => if at == id && ParcelStep(o.status, to) then Some(to) else None
    case CustomerCancel(user, at) =>
      if at == id && o.user == Some(user) && o.status == Pending then Some(Cancelled) else None
    case _ => None
  }

  /** What the step marks the money as: paid once, refunded after that. */
  function Marks(s: Shop, op: Op, id: nat): Option<PaymentStatus>
    requires id < |s.orders|
  {
    match op
    case Pay(at, to) =>
      var from := s.orders[id].payment;
      if at == id && ((from == Unpaid && to == Paid) || (from == Paid && to == Refunded)) then Some(to) else None
    case _ => None
  }

  /** The step deletes the account the order belongs to. */
  predicate Detaches(s: Shop, op: Op, id: nat)
    requires id < |s.orders|
  {
    op.CloseAccount? && s.orders[id].user == Some(op.user)
  }

  /** Cash is handed over with the parcel. */
  predicate Settles(o: Order, to: Option<Status>) {
    to == Some(Delivered) && o.how == CashOnDelivery && o.payment == Unpaid
  }

  /** Status, money and owner each move for their own reason, and nothing else moves. */
  ghost predicate OrderLaw(o: Order, o': Order, to: Option<Status>, mark: Option<PaymentStatus>, detached: bool) {
    && (if to.Some? then o'.status == to.value && o'.events == o.events + [to.value]
        else o'.status == o.status && o'.events == o.events)
    && o'.payment == (if mark.Some? then mark.value else if Settles(o, to) then Paid else o.payment)
    && o'.user == (if detached then None else o.user)
    && o'.how == o.how && o'.currency == o.currency && o'.totals == o.totals && o'.promo == o.promo
    && o'.items == o.items && o'.prior == o.prior
  }

  lemma TableIsParcelSteps(from: Status, to: Status)
    ensures ValidTransition(from, to) <==> ParcelStep(from, to)
  {
  }

  lemma AdvancedLaw(o: Order, to: Status)
    ensures OrderLaw(o, Advanced(o, to), Some(to), None, false)
  {
  }

  lemma KeptLaw(o: Order)
    ensures OrderLaw(o, o, None, None, false)
  {
  }

  lemma StatusOrders(s: Shop, at: nat, to: Status)
    requires at < |s.orders|
    ensures WithStatus(s, at, to).orders == s.orders[at := Advanced(s.orders[at], to)]
  {
  }

  lemma AdvanceLaw(s: Shop, at: nat, to: Status, id: nat)
    requires id < |s.orders|
    ensures id < |UpdateOrderStatus(s, at, to).shop.orders|
    ensures UpdateOrderStatus(s, at, to).shop.orders[id] ==
            if MovesTo(s, Advance(at, to), id) == Some(to) then Advanced(s.orders[id], to) else s.orders[id]
  {
    if at < |s.orders| {
      TableIsParcelSteps(s.orders[at].status, to);
      StatusOrders(s, at, to);
    }
  }

  lemma CancelLaw(s: Shop, user: nat, at: nat, id: nat)
    requires id < |s.orders|
    ensures id < |CancelOrderByCustomer(s, user, at).shop.orders|
    ensures CancelOrderByCustomer(s, user, at).shop.orders[id] ==
            if MovesTo(s, CustomerCancel(user, at), id).Some? then Advanced(s.orders[id], Cancelled) else s.orders[id]
  {
    if at < |s.orders| {
      StatusOrders(s, at, Cancelled);
    }
  }

  lemma PayLaw(s: Shop, at: nat, to: PaymentStatus, id: nat)
    requires id < |s.orders|
    ensures id < |UpdatePaymentStatus(s, at, to).shop.orders|
    ensures UpdatePaymentStatus(s, at, to).shop.orders[id] ==
            if Marks(s, Pay(at, to), id).Some? then s.orders[id].(payment := to) else s.orders[id]
  {
    PaymentMovesForward(s.orders[id].payment, to);
    if at == id {
      PaidLaw(s, id, to);
    }
  }

  lemma PaidLaw(s: Shop, id: nat, to: PaymentStatus)
    requires id < |s.orders|
    ensures UpdatePaymentStatus(s, id, to).shop.orders ==
            if ValidPayment(s.orders[id].payment, to) then s.orders[id := s.orders[id].(payment := to)] else s.orders
  {
  }

  predicate StatusOp(op: Op) {
    op.Advance? || op.CustomerCancel? || op.Pay?
  }

  /** A change of status or money touches the orders, and what a cancellation gives back. */
  lemma StatusOpShape(s: Shop, op: Op)
    requires StatusOp(op)
    ensures var s' := Apply(s, op).shop; s' == s.(orders := s'.orders, stock := s'.stock, redemptions := s'.redemptions)
  {
    match op {
      case Advance(at, to) => UpdateShape(s, at, to);
      case CustomerCancel(user, at) => CancelShape(s, user, at);
      case Pay(at, to) => PaymentShape(s, at, to);
    }
  }

  lemma WithStatusShape(s: Shop, at: nat, to: Status)
    requires at < |s.orders|
    ensures
      var s' := WithStatus(s, at, to);
      s' == s.(orders := s'.orders, stock := s'.stock, redemptions := s'.redemptions)
  {
  }

  lemma UpdateShape(s: Shop, at: nat, to: Status)
    ensures
      var s' := UpdateOrderStatus(s, at, to).shop;
      s' == s.(orders := s'.orders, stock := s'.stock, redemptions := s'.redemptions)
  {
    if at < |s.orders| {
      WithStatusShape(s, at, to);
    }
  }

  lemma CancelShape(s: Shop, user: nat, at: nat)
    ensures
      var s' := CancelOrderByCustomer(s, user, at).shop;
      s' == s.(orders := s'.orders, stock := s'.stock, redemptions := s'.redemptions)
  {
    if at < |s.orders| {
      WithStatusShape(s, at, Cancelled);
    }
  }

  lemma CloseLaw(s: Shop, user: nat, id: nat)
    requires id < |s.orders|
    ensures id < |DeleteAccount(s, user).shop.orders|
    ensures DeleteAccount(s, user).shop.orders[id] ==
            if Detaches(s, CloseAccount(user), id) then s.orders[id].(user := None) else s.orders[id]
  {
  }

  /** What any transaction does to any order there is. */
  lemma OrderMoves(s: Shop, op: Op, id: nat)
    requires id < |s.orders|
    ensures id < |Apply(s, op).shop.orders|
    ensures OrderLaw(s.orders[id], Apply(s, op).shop.orders[id], MovesTo(s, op, id), Marks(s, op, id), Detaches(s, op, id))
  {
    var o := s.orders[id];
    KeptLaw(o);
    match op {
      case Checkout(req) => CheckoutShape(s, req);
      case Advance(at, to) =>
        AdvanceLaw(s, at, to, id);
        AdvancedLaw(o, to);
      case CustomerCancel(user, at) =>
        CancelLaw(s, user, at, id);
        AdvancedLaw(o, Cancelled);
      case Pay(at, to) => PayLaw(s, at, to, id);
      case CloseAccount(user) => CloseLaw(s, user, id);
      case _ => ShelfOpShape(s, op);
    }
  }

  // ----- Answers --------------------------------------------------------------------------

  /** A transaction that is refused has changed nothing. */
  lemma RefusedChangesNothing(s: Shop, op: Op)
    requires Apply(s, op).reply.Refused?
    ensures Apply(s, op).shop == s
  {
    if op.Checkout? {
      CheckoutShape(s, op.req);
    }
  }

  /** What the doors of an order answer. */
  lemma OrderAnswers(s: Shop, op: Op)
    requires op.Advance? || op.CustomerCancel? || op.Pay?
    ensures
      var reply := Apply(s, op).reply;
      && (op.id >= |s.orders| ==> reply == Refused(NotFound))
      && (op.id < |s.orders| && !op.CustomerCancel? ==>
            reply == if MovesTo(s, op, op.id).Some? || Marks(s, op, op.id).Some? then Done else Refused(InvalidTransition))
      && (op.id < |s.orders| && op.CustomerCancel? ==>
            reply == if s.orders[op.id].user != Some(op.user) then Refused(NotFound)
                     else if s.orders[op.id].status != Pending then Refused(TooLateToCancel)
                     else Done)
  {
    if op.id < |s.orders| {
      match op {
        case Advance(at, to) => TableIsParcelSteps(s.orders[at].status, to);
        case Pay(at, to) => PaymentMovesForward(s.orders[at].payment, to);
        case _ =>
      }
    }
  }

  /** What the doors of a cart, a code and the shelf answer. */
  lemma ShelfAnswers(s: Shop, op: Op)
    ensures
      var reply := Apply(s, op).reply;
      match op
      case PutInCart(_, variant, qty) =>
        reply == if variant !in s.stock then Refused(NotFound) else if qty < 1 then Refused(CheckViolation) else Done
      case Shelve(variant, qty) =>
        reply == if variant !in s.stock then Refused(NotFound) else if qty < 0 then Refused(CheckViolation) else Done
      case ApplyCode(_, code) => reply == if code in s.promos then Done else Refused(NotFound)
      case AddPromo(code, rules) =>
        reply == if code !in s.promos && forall other | other in s.promos :: s.promos[other].text != rules.text
                 then Done else Refused(CodeTaken)
      case EditPromo(code, rules) =>
        reply == if code !in s.promos then Refused(NotFound)
                 else if exists other :: other in s.promos && other != code && s.promos[other].text == rules.text
                 then Refused(CodeTaken) else Done
      case Again(user, id) =>
        && (id >= |s.orders| ==> reply == Refused(NotFound))
        && (id < |s.orders| && s.orders[id].user.None? ==> reply == Refused(InternalError))
        && (id < |s.orders| && s.orders[id].user.Some? && s.orders[id].user.value != user ==> reply == Refused(NotFound))
        && (id < |s.orders| && s.orders[id].user == Some(user) ==> reply.Merged?)
      case TakeFromCart(_, _) => reply == Done
      case RemoveCode(_) => reply == Done
      case Reprice(_) => reply == Done
      case CloseAccount(_) => reply == Done
      case _ => true
  {
  }

  // ----- The shelf --------------------------------------------------------------------------

  /** The order the step calls off, if it calls one off. */
  predicate CallsOff(s: Shop, op: Op) {
    (op.Advance? || op.CustomerCancel?) && op.id < |s.orders| && MovesTo(s, op, op.id) == Some(Cancelled)
  }

  predicate Orders(s: Shop, op: Op) {
    op.Checkout? && CreateOrder(s, op.req).reply.Placed?
  }

  /** What the shelf holds of a variant after the step. */
  function ShelfAfter(s: Shop, op: Op, v: nat): int
    requires v in s.stock
  {
    match op
    case Checkout(req) => s.stock[v] - if Orders(s, op) then QtyInCart(CartOf(s, req.user), v) else 0
    case Advance(at, _) => s.stock[v] + if CallsOff(s, op) then QtyOf(s.orders[at].items, v) else 0
    case CustomerCancel(_, at) => s.stock[v] + if CallsOff(s, op) then QtyOf(s.orders[at].items, v) else 0
    case Shelve(variant, qty) => if variant == v && qty >= 0 then qty else s.stock[v]
    case _ => s.stock[v]
  }

  /**
   * The shelf loses what is in the cart that is ordered, gets back what an order that is called off had, is
   * set by a recount, and is moved by nothing else.
   */
  lemma ShelfMoves(s: Shop, op: Op, v: nat)
    requires BooksSound(s) && v in s.stock
    ensures Apply(s, op).shop.stock.Keys == s.stock.Keys
    ensures Apply(s, op).shop.stock[v] == ShelfAfter(s, op, v)
  {
    if op.Checkout? {
      CheckoutShelf(s, op.req, v);
    } else if op.Advance? || op.CustomerCancel? {
      CallOffShelf(s, op, v);
    } else if op.Shelve? {
      ShelveShelf(s, op, v);
    } else {
      OthersKeepShelf(s, op);
    }
  }

  lemma ShelveShelf(s: Shop, op: Op, v: nat)
    requires v in s.stock && op.Shelve?
    ensures Apply(s, op).shop.stock.Keys == s.stock.Keys
    ensures Apply(s, op).shop.stock[v] == ShelfAfter(s, op, v)
  {
  }

  lemma CheckoutShelf(s: Shop, req: Request, v: nat)
    requires BooksSound(s) && v in s.stock
    ensures CreateOrder(s, req).shop.stock.Keys == s.stock.Keys
    ensures CreateOrder(s, req).shop.stock[v] ==
            s.stock[v] - if CreateOrder(s, req).reply.Placed? then QtyInCart(CartOf(s, req.user), v) else 0
  {
    CheckoutShape(s, req);
    if NewOrder(s, req).Some? {
      DecidedOrder(Read(s, req), req, NewOrder(s, req).value);
      OrderedQty(s, CartOf(s, req.user), req, v);
    }
  }

  lemma CancelledShelf(s: Shop, at: nat, v: nat)
    requires BooksSound(s) && at < |s.orders| && v in s.stock
    ensures WithStatus(s, at, Cancelled).stock.Keys == s.stock.Keys
    ensures WithStatus(s, at, Cancelled).stock[v] == s.stock[v] + QtyOf(s.orders[at].items, v)
  {
    RestoreIsExact(s.orders[at].items, v);
  }

  lemma CallOffShelf(s: Shop, op: Op, v: nat)
    requires BooksSound(s) && v in s.stock && (op.Advance? || op.CustomerCancel?)
    ensures Apply(s, op).shop.stock.Keys == s.stock.Keys
    ensures Apply(s, op).shop.stock[v] == s.stock[v] + if CallsOff(s, op) then QtyOf(s.orders[op.id].items, v) else 0
  {
    if CallsOff(s, op) {
      CalledOffShop(s, op);
      CancelledShelf(s, op.id, v);
    } else {
      NotCalledOffShelf(s, op);
    }
  }

  lemma CalledOffShop(s: Shop, op: Op)
    requires CallsOff(s, op)
    ensures Apply(s, op).shop == WithStatus(s, op.id, Cancelled)
  {
    TableIsParcelSteps(s.orders[op.id].status, Cancelled);
  }

  lemma NotCalledOffShelf(s: Shop, op: Op)
    requires (op.Advance? || op.CustomerCancel?) && !CallsOff(s, op)
    ensures Apply(s, op).shop.stock == s.stock
  {
    if op.id < |s.orders| && op.Advance? {
      TableIsParcelSteps(s.orders[op.id].status, op.to);
    }
  }

  lemma OthersKeepShelf(s: Shop, op: Op)
    requires !op.Checkout? && !op.Advance? && !op.CustomerCancel? && !op.Shelve?
    ensures Apply(s, op).shop.stock == s.stock
  {
    if op.Pay? {
      PaymentShape(s, op.id, op.payment);
    } else if CartOp(op) {
      CartOpShape(s, op);
    } else if !op.Reprice? && !op.CloseAccount? {
      CodeOpShape(s, op);
    }
  }

  // ----- Sales counters ------------------------------------------------------------------------

  /** The variants of a product among those there are. */
  function VariantsOf(s: Shop, product: nat): set<nat> {
    set v | v in s.stock && IsOf(s.catalog, v, product)
  }

  ghost predicate InStock(items: seq<Item>, stock: map<nat, int>) {
    forall k | 0 <= k < |items| :: items[k].variant in stock
  }

  function UnitsIn(items: seq<Item>): nat -> int {
    (v: nat) => QtyOf(items, v)
  }

  function UnitsOf(item: Item): nat -> int {
    (v: nat) => if item.variant == v then item.qty else 0
  }

  lemma {:induction false} SumOfOne(vs: set<nat>, item: Item)
    ensures SumOver(vs, UnitsOf(item)) == if item.variant in vs then item.qty else 0
  {
    if item.variant in vs {
      SumOverPick(vs, UnitsOf(item), item.variant);
      SumOfOne(vs - {item.variant}, item);
    } else if vs != {} {
      var v :| v in vs;
      SumOverPick(vs, UnitsOf(item), v);
      SumOfOne(vs - {v}, item);
    }
  }

  lemma SumOfNone(vs: set<nat>)
    ensures SumOver(vs, UnitsIn([])) == 0
    decreases vs
  {
    if vs != {} {
      var v :| v in vs;
      SumOverPick(vs, UnitsIn([]), v);
      SumOfNone(vs - {v});
    }
  }

  /** What a product sold is the units sold of its variants. */
  lemma {:induction false} SoldIsUnits(s: Shop, items: seq<Item>, product: nat)
    requires InStock(items, s.stock)
    ensures SoldOf(items, s.catalog.productOf, product) == SumOver(VariantsOf(s, product), UnitsIn(items))
  {
    var vs := VariantsOf(s, product);
    if items == [] {
      SumOfNone(vs);
    } else {
      var front, last := items[..|items| - 1], items[|items| - 1];
      SoldIsUnits(s, front, product);
      SumOverAdds(vs, UnitsIn(front), UnitsOf(last), UnitsIn(items));
      SumOfOne(vs, last);
    }
  }

  function Taken(s: Shop, s': Shop): nat -> int {
    (v: nat) => At(s.stock, v) - At(s'.stock, v)
  }

  lemma OrderCounts(s: Shop, req: Request, product: nat)
    requires BooksSound(s) && product in s.sales && NewOrder(s, req).Some?
    ensures
      var o := NewOrder(s, req).value;
      SoldOf(o.items, s.catalog.productOf, product) == SumOver(VariantsOf(s, product), Taken(s, Publish(s, req.user, o)))
  {
    var o := NewOrder(s, req).value;
    CheckoutIsFresh(s, req, Read(s, req), o);
    SoldIsUnits(s, o.items, product);
    SumOverSame(VariantsOf(s, product), UnitsIn(o.items), Taken(s, Publish(s, req.user, o)));
  }

  /** A placed order raises a product's counter by the units that leave the shelf of its variants. */
  lemma CheckoutCounts(s: Shop, req: Request, product: nat)
    requires BooksSound(s) && product in s.sales
    ensures product in CreateOrder(s, req).shop.sales
    ensures CreateOrder(s, req).shop.sales[product] ==
            s.sales[product] + SumOver(VariantsOf(s, product), Taken(s, CreateOrder(s, req).shop))
  {
    CheckoutShape(s, req);
    if NewOrder(s, req).Some? {
      OrderCounts(s, req, product);
    } else {
      NothingTaken(s, VariantsOf(s, product));
    }
  }

  lemma NothingTaken(s: Shop, vs: set<nat>)
    ensures SumOver(vs, Taken(s, s)) == 0
    decreases vs
  {
    if vs != {} {
      var v :| v in vs;
      SumOverPick(vs, Taken(s, s), v);
      NothingTaken(s, vs - {v});
    }
  }

  /** And nothing else moves a counter. */
  lemma CounterMoves(s: Shop, op: Op, product: nat)
    requires BooksSound(s) && product in s.sales
    ensures product in Apply(s, op).shop.sales
    ensures Apply(s, op).shop.sales[product] != s.sales[product] ==> Orders(s, op)
    ensures Orders(s, op) ==>
              Apply(s, op).shop.sales[product] ==
              s.sales[product] + SumOver(VariantsOf(s, product), Taken(s, Apply(s, op).shop))
  {
    if op.Checkout? {
      CheckoutShape(s, op.req);
      CheckoutCounts(s, op.req, product);
    } else {
      OtherStepsSellNothing(s, op);
    }
  }

  // ----- Redemption rows ----------------------------------------------------------------------------

  /** The code on a customer's cart, if there is such a code. */
  function CodeOn(s: Shop, user: nat): Option<nat> {
    if user in s.cartPromo && s.cartPromo[user] in s.promos then Some(s.cartPromo[user]) else None
  }

  lemma CheckoutRedeems(s: Shop, req: Request)
    ensures CreateOrder(s, req).shop.redemptions ==
            if CreateOrder(s, req).reply.Placed? && CodeOn(s, req.user).Some?
            then s.redemptions[|s.orders| := Redemption(CodeOn(s, req.user).value, req.user)]
            else s.redemptions
  {
    CheckoutShape(s, req);
    if NewOrder(s, req).Some? {
      DecidedOrder(Read(s, req), req, NewOrder(s, req).value);
    }
  }

  /** An order called off frees its own row, and no other change of status frees any. */
  lemma StatusRedeems(s: Shop, op: Op)
    requires op.Advance? || op.CustomerCancel?
    ensures Apply(s, op).shop.redemptions == if CallsOff(s, op) then s.redemptions - {op.id} else s.redemptions
  {
    if op.id < |s.orders| {
      TableIsParcelSteps(s.orders[op.id].status, if op.Advance? then op.to else Cancelled);
    }
  }

  /**
   * A placed order adds the row of its code, calling one off or closing an account removes rows, and nothing
   * else moves them.
   */
  lemma RedemptionMoves(s: Shop, op: Op, id: nat)
    ensures
      var rows, rows' := s.redemptions, Apply(s, op).shop.redemptions;
      && (id in rows' && id !in rows ==> Orders(s, op) && id == |s.orders| && CodeOn(s, op.req.user).Some?)
      && (Orders(s, op) && CodeOn(s, op.req.user).Some? ==>
            |s.orders| in rows' && rows'[|s.orders|] == Redemption(CodeOn(s, op.req.user).value, op.req.user))
      && (id in rows && id !in rows' <==>
            id in rows && ((CallsOff(s, op) && op.id == id) || (op.CloseAccount? && rows[id].user == op.user)))
      && (id in rows && id in rows' && id < |s.orders| ==> rows'[id] == rows[id])
  {
    match op {
      case Checkout(req) => CheckoutRedeems(s, req);
      case Advance(_, _) => StatusRedeems(s, op);
      case CustomerCancel(_, _) => StatusRedeems(s, op);
      case Pay(at, to) => PaymentShape(s, at, to);
      case CloseAccount(_) =>
      case _ => ShelfOpShape(s, op);
    }
  }

  // ----- Carts and the codes on them -------------------------------------------------------------------

  /** What a customer's cart holds of a variant after the step, reorders apart. */
  function InCartAfter(s: Shop, op: Op, u: nat, v: nat): int {
    var before := QtyInCart(CartOf(s, u), v);
    match op
    case Checkout(req) => if req.user == u && Orders(s, op) then 0 else before
    case PutInCart(user, variant, qty) =>
      if user == u && variant == v && v in s.stock && qty > 0 then qty else before
    case TakeFromCart(user, variant) => if user == u && variant == v then 0 else before
    case CloseAccount(user) => if user == u then 0 else before
    case _ => before
  }

  lemma CartMoves(s: Shop, op: Op, u: nat, v: nat)
    requires UniqueCart(CartOf(s, u)) && (op.Again? ==> op.user != u)
    ensures QtyInCart(CartOf(Apply(s, op).shop, u), v) == InCartAfter(s, op, u, v)
  {
    match op {
      case Checkout(req) => CheckoutEmptiesCart(s, req, u);
      case PutInCart(user, variant, qty) => PutSetsLine(s, user, variant, qty, u, v);
      case TakeFromCart(user, variant) => TakeDropsLine(s, user, variant, u, v);
      case Again(user, id) => AgainFillsOwn(s, user, id, u);
      case _ => OthersKeepCarts(s, op, u);
    }
  }

  lemma CheckoutEmptiesCart(s: Shop, req: Request, u: nat)
    ensures CartOf(CreateOrder(s, req).shop, u) ==
            if req.user == u && CreateOrder(s, req).reply.Placed? then [] else CartOf(s, u)
  {
    CheckoutShape(s, req);
  }

  lemma PutSetsLine(s: Shop, user: nat, variant: nat, qty: int, u: nat, v: nat)
    requires UniqueCart(CartOf(s, u))
    ensures QtyInCart(CartOf(SetCartItem(s, user, variant, qty).shop, u), v) ==
            if user == u && variant == v && v in s.stock && qty > 0 then qty else QtyInCart(CartOf(s, u), v)
  {
    if user == u {
      SetLineQty(CartOf(s, u), variant, qty, v);
    }
  }

  lemma TakeDropsLine(s: Shop, user: nat, variant: nat, u: nat, v: nat)
    requires UniqueCart(CartOf(s, u))
    ensures QtyInCart(CartOf(DeleteCartItem(s, user, variant).shop, u), v) ==
            if user == u && variant == v then 0 else QtyInCart(CartOf(s, u), v)
  {
    if user == u {
      DropLineQty(CartOf(s, u), variant, v);
    }
  }

  lemma AgainFillsOwn(s: Shop, user: nat, id: nat, u: nat)
    requires user != u
    ensures CartOf(Reorder(s, user, id).shop, u) == CartOf(s, u)
  {
  }

  predicate CartOp(op: Op) {
    op.PutInCart? || op.TakeFromCart? || op.Again?
  }

  lemma OthersKeepCarts(s: Shop, op: Op, u: nat)
    requires !op.Checkout? && !CartOp(op)
    ensures CartOf(Apply(s, op).shop, u) == if op.CloseAccount? && op.user == u then [] else CartOf(s, u)
  {
    if StatusOp(op) {
      StatusOpShape(s, op);
    } else if op.CloseAccount? {
      CloseEmptiesCart(s, op.user, u);
    } else if op.Shelve? || op.Reprice? {
      StockOpShape(s, op);
    } else {
      CodeOpShape(s, op);
    }
  }

  lemma CloseEmptiesCart(s: Shop, user: nat, u: nat)
    ensures CartOf(DeleteAccount(s, user).shop, u) == if user == u then [] else CartOf(s, u)
  {
  }

  /** Which code a cart carries after the step. */
  function CodeAfter(s: Shop, op: Op, u: nat): Option<nat> {
    var before := Carries(s, u);
    match op
    case Checkout(req) => if req.user == u && Orders(s, op) then None else before
    case ApplyCode(user, code) => if user == u && code in s.promos then Some(code) else before
    case RemoveCode(user) => if user == u then None else before
    case CloseAccount(user) => if user == u then None else before
    case _ => before
  }

  function Carries(s: Shop, u: nat): Option<nat> {
    if u in s.cartPromo then Some(s.cartPromo[u]) else None
  }

  lemma CartCodeMoves(s: Shop, op: Op, u: nat)
    ensures Carries(Apply(s, op).shop, u) == CodeAfter(s, op, u)
  {
    match op {
      case Checkout(req) => CheckoutShape(s, req);
      case ApplyCode(_, _) => CodeOpCarries(s, op, u);
      case RemoveCode(_) => CodeOpCarries(s, op, u);
      case CloseAccount(_) => CodeOpCarries(s, op, u);
      case _ => OthersKeepCodes(s, op);
    }
  }

  lemma CodeOpCarries(s: Shop, op: Op, u: nat)
    requires op.ApplyCode? || op.RemoveCode? || op.CloseAccount?
    ensures Carries(Apply(s, op).shop, u) == CodeAfter(s, op, u)
  {
  }

  lemma OthersKeepCodes(s: Shop, op: Op)
    requires !op.Checkout? && !op.ApplyCode? && !op.RemoveCode? && !op.CloseAccount?
    ensures Apply(s, op).shop.cartPromo == s.cartPromo
  {
    if StatusOp(op) {
      StatusOpShape(s, op);
    } else if CartOp(op) {
      CartOpShape(s, op);
    } else if op.Shelve? || op.Reprice? {
      StockOpShape(s, op);
    } else {
      PromoOpKeepsCodes(s, op);
    }
  }

  lemma PromoOpKeepsCodes(s: Shop, op: Op)
    requires op.AddPromo? || op.EditPromo?
    ensures Apply(s, op).shop == s.(promos := Apply(s, op).shop.promos)
  {
  }

  // ----- Codes, catalog and supply ----------------------------------------------------------------------

  /** Rules are written whole by an edit that is let through, and by nothing else. */
  lemma RulesMove(s: Shop, op: Op)
    ensures Apply(s, op).shop.promos ==
            if (op.AddPromo? || op.EditPromo?) && Apply(s, op).reply == Done then s.promos[op.code := op.rules]
            else s.promos
  {
    if op.Checkout? {
      CheckoutShape(s, op.req);
    } else if !op.AddPromo? && !op.EditPromo? {
      OtherStepsShrink(s, op);
    }
  }

  /** What was supplied grows by the difference a recount finds; prices, rates and flags are set together. */
  lemma SupplyMoves(s: Shop, op: Op, v: nat)
    requires s.supplied.Keys == s.stock.Keys && v in s.stock
    ensures v in Apply(s, op).shop.supplied
    ensures Apply(s, op).shop.supplied[v] ==
            s.supplied[v] + if op.Shelve? && op.variant == v && op.qty >= 0 then op.qty - s.stock[v] else 0
    ensures Apply(s, op).shop.catalog ==
            if op.Reprice? then op.catalog.(productOf := s.catalog.productOf) else s.catalog
  {
    if op.Shelve? {
      ShelveSupplies(s, op.variant, op.qty, v);
    } else if !op.Reprice? {
      OthersSupplyNothing(s, op);
    }
  }

  lemma ShelveSupplies(s: Shop, variant: nat, qty: int, v: nat)
    requires s.supplied.Keys == s.stock.Keys && v in s.stock
    ensures
      var s' := SetStock(s, variant, qty).shop;
      && s'.catalog == s.catalog && v in s'.supplied
      && s'.supplied[v] == s.supplied[v] + if variant == v && qty >= 0 then qty - s.stock[v] else 0
  {
  }

  lemma OthersSupplyNothing(s: Shop, op: Op)
    requires !op.Shelve? && !op.Reprice?
    ensures Apply(s, op).shop.supplied == s.supplied && Apply(s, op).shop.catalog == s.catalog
  {
    if op.Checkout? {
      CheckoutShape(s, op.req);
    } else if StatusOp(op) {
      StatusOpShape(s, op);
    } else if CartOp(op) {
      CartOpShape(s, op);
    } else if !op.CloseAccount? {
      CodeOpShape(s, op);
    }
  }

  // ----- What a placed order says -------------------------------------------------------------------------

  /** The count a checkout is priced with: the customer's orders that have not been called off. */
  function LiveOrdersOf(orders: seq<Order>, user: nat): set<nat> {
    set i: nat | i < |orders| && orders[i].status != Cancelled && orders[i].user == Some(user)
  }

  lemma {:induction false} PriorIsCount(orders: seq<Order>, user: nat)
    ensures Tally(orders, LiveOf(user)) == |LiveOrdersOf(orders, user)|
  {
    if orders == [] {
      assert LiveOrdersOf(orders, user) == {};
    } else {
      var n := |orders| - 1;
      PriorIsCount(orders[..n], user);
      assert LiveOrdersOf(orders, user) ==
             LiveOrdersOf(orders[..n], user)
             + if orders[n].status != Cancelled && orders[n].user == Some(user) then {n} else {};
    }
  }

  predicate PricedAt(c: Catalog, variant: nat, currency: Currency, price: int) {
    variant in c.prices && currency in c.prices[variant] && c.prices[variant][currency] == price
  }

  /** The line of an order for a line of the cart: the same variant and quantity at the catalog's price. */
  ghost predicate Sells(s: Shop, req: Request, line: CartLine, item: Item) {
    item.variant == line.variant && item.qty == line.qty && PricedAt(s.catalog, line.variant, req.currency, item.price)
  }

  /** What the items come to. */
  function Worth(items: seq<Item>): int {
    if items == [] then 0 else items[0].price * items[0].qty + Worth(items[1..])
  }

  /** Something in the cart has to be kept cold. */
  ghost predicate SomethingCold(s: Shop, cart: seq<CartLine>) {
    exists k, product | 0 <= k < |cart| && product in s.catalog.cold :: IsOf(s.catalog, cart[k].variant, product)
  }

  /** What the order is priced with. */
  ghost function PricedWith(s: Shop, req: Request, o: Order): Pricing.PriceInput
    requires req.currency in s.catalog.rates
  {
    Pricing.PriceInput(req.currency, Worth(o.items), SomethingCold(s, CartOf(s, req.user)), s.catalog.rates[req.currency],
                       |LiveOrdersOf(s.orders, req.user)|, CartPromo(s, req.user), req.now)
  }

  /**
   * A new order: who ordered, how it is paid for, in which market, with which code, for how much, and a line for
   * every line of the cart.
   */
  ghost predicate NewOrderLaw(s: Shop, req: Request, o: Order) {
    && o.user == Some(req.user) && o.how == req.how && o.currency == req.currency
    && o.status == Pending && o.events == [Pending] && o.payment == Unpaid
    && o.promo == CodeOn(s, req.user)
    && o.prior == |LiveOrdersOf(s.orders, req.user)|
    && req.currency in s.catalog.rates && o.totals == Pricing.Quote(PricedWith(s, req, o)).totals
    && |o.items| == |CartOf(s, req.user)|
    && forall line | line in CartOf(s, req.user) :: exists k | 0 <= k < |o.items| :: Sells(s, req, line, o.items[k])
  }

  lemma {:induction false} SortedLength(cart: seq<CartLine>)
    ensures |ByVariant(cart)| == |cart|
  {
    if cart != [] {
      SortedLength(cart[1..]);
      InsertLength(cart[0], ByVariant(cart[1..]));
    }
  }

  lemma {:induction false} InsertLength(line: CartLine, sorted: seq<CartLine>)
    ensures |InsertByVariant(line, sorted)| == |sorted| + 1
  {
    if sorted != [] && line.variant > sorted[0].variant {
      InsertLength(line, sorted[1..]);
    }
  }

  lemma LineIsSold(s: Shop, req: Request, items: seq<Item>, line: CartLine)
    requires UniqueCart(CartOf(s, req.user)) && line in CartOf(s, req.user)
    requires items == ItemsOf(Read(s, req).lines) && FirstProblem(Read(s, req).lines).None?
    ensures exists k | 0 <= k < |items| :: Sells(s, req, line, items[k])
  {
    var sorted := ByVariant(CartOf(s, req.user));
    ByVariantAscends(CartOf(s, req.user));
    assert line in sorted;
    var k: nat :| k < |sorted| && sorted[k] == line;
    NoProblemMeansStocked(Read(s, req).lines, k);
    assert Sells(s, req, line, items[k]);
  }

  lemma {:induction false} WorthSnoc(items: seq<Item>, item: Item)
    ensures Worth(items + [item]) == Worth(items) + item.price * item.qty
  {
    if items == [] {
      assert [] + [item] == [item];
    } else {
      WorthSnoc(items[1..], item);
      assert (items + [item])[1..] == items[1..] + [item];
    }
  }

  lemma {:induction false} SubtotalIsWorth(lines: seq<LineView>)
    ensures Subtotal(lines) == Worth(ItemsOf(lines))
  {
    if lines != [] {
      var front, last := lines[..|lines| - 1], lines[|lines| - 1];
      SubtotalIsWorth(front);
      WorthSnoc(ItemsOf(front), ItemOf(last));
      assert ItemsOf(lines) == ItemsOf(front) + [ItemOf(last)];
    }
  }

  lemma ColdIsRead(s: Shop, req: Request)
    requires UniqueCart(CartOf(s, req.user))
    ensures AnyCold(Read(s, req).lines) <==> SomethingCold(s, CartOf(s, req.user))
  {
    var cart, sorted := CartOf(s, req.user), ByVariant(CartOf(s, req.user));
    ByVariantAscends(cart);
    if AnyCold(Read(s, req).lines) {
      var i :| 0 <= i < |sorted| && Read(s, req).lines[i].cold;
      assert sorted[i] in cart;
      var k :| 0 <= k < |cart| && cart[k] == sorted[i];
      assert IsOf(s.catalog, cart[k].variant, ProductOf(s.catalog.productOf, cart[k].variant));
    }
    if k, product :| 0 <= k < |cart| && product in s.catalog.cold && IsOf(s.catalog, cart[k].variant, product) {
      assert cart[k] in sorted;
      var i :| 0 <= i < |sorted| && sorted[i] == cart[k];
      assert Read(s, req).lines[i].cold;
    }
  }

  lemma DecidedPrice(v: View, req: Request, o: Order)
    requires Decide(v, req) == Success(o)
    ensures o.how == req.how && o.currency == req.currency
    ensures v.rate.Some? && o.totals == Pricing.Quote(InputOf(v, v.rate.value, req)).totals
  {
  }

  lemma PlacedOrder(s: Shop, req: Request)
    requires BooksSound(s) && CreateOrder(s, req).reply.Placed?
    ensures CreateOrder(s, req).reply == Placed(|s.orders|)
    ensures |CreateOrder(s, req).shop.orders| == |s.orders| + 1
    ensures CreateOrder(s, req).shop.orders[..|s.orders|] == s.orders
    ensures NewOrderLaw(s, req, CreateOrder(s, req).shop.orders[|s.orders|])
  {
    var o := NewOrder(s, req).value;
    CheckoutShape(s, req);
    DecidedOrder(Read(s, req), req, o);
    DecidedPrice(Read(s, req), req, o);
    SubtotalIsWorth(Read(s, req).lines);
    ColdIsRead(s, req);
    NoneLive(s.orders, req.user);
    PriorIsCount(s.orders, req.user);
    SortedLength(CartOf(s, req.user));
    forall line | line in CartOf(s, req.user)
      ensures exists k | 0 <= k < |o.items| :: Sells(s, req, line, o.items[k])
    {
      LineIsSold(s, req, o.items, line);
    }
  }

  // ----- What a refused checkout says -----------------------------------------------------------------------

  predicate Unpriced(s: Shop, req: Request, line: CartLine) {
    line.variant !in s.catalog.prices || req.currency !in s.catalog.prices[line.variant]
  }

  predicate Short(s: Shop, line: CartLine) {
    At(s.stock, line.variant) < line.qty
  }

  /** The refusal a line of the cart deserves. */
  predicate Deserves(s: Shop, req: Request, line: CartLine, why: Refusal) {
    if Unpriced(s, req, line) then why == PriceUnavailable(line.variant)
    else Short(s, line) && why == StockShort(line.variant, At(s.stock, line.variant))
  }

  predicate Unsellable(s: Shop, req: Request, line: CartLine) {
    Unpriced(s, req, line) || Short(s, line)
  }

  lemma {:induction false} FirstIsFirst(lines: seq<LineView>) returns (k: nat)
    requires FirstProblem(lines).Some?
    ensures k < |lines| && LineProblem(lines[k]) == FirstProblem(lines)
    ensures forall j | 0 <= j < k :: LineProblem(lines[j]).None?
  {
    var n := |lines| - 1;
    if FirstProblem(lines[..n]).Some? {
      k := FirstIsFirst(lines[..n]);
    } else {
      k := n;
      forall j | 0 <= j < n
        ensures LineProblem(lines[j]).None?
      {
        NoneBefore(lines[..n], j);
      }
    }
  }

  lemma {:induction false} NoneBefore(lines: seq<LineView>, j: nat)
    requires FirstProblem(lines).None? && j < |lines|
    ensures LineProblem(lines[j]).None?
  {
    if j < |lines| - 1 {
      NoneBefore(lines[..|lines| - 1], j);
    }
  }

  /** The line that is named is in the cart, deserves what it is named for, and no line of a lower variant has a fault. */
  ghost predicate FirstFault(s: Shop, req: Request, line: CartLine, why: Refusal) {
    && line in CartOf(s, req.user) && Deserves(s, req, line, why)
    && forall other | other in CartOf(s, req.user) && other.variant < line.variant :: !Unsellable(s, req, other)
  }

  lemma FaultIsFirst(s: Shop, req: Request) returns (line: CartLine)
    requires UniqueCart(CartOf(s, req.user)) && FirstProblem(Read(s, req).lines).Some?
    ensures FirstFault(s, req, line, FirstProblem(Read(s, req).lines).value)
  {
    var sorted := ByVariant(CartOf(s, req.user));
    ByVariantAscends(CartOf(s, req.user));
    var k := FirstIsFirst(Read(s, req).lines);
    line := sorted[k];
    forall other | other in CartOf(s, req.user) && other.variant < line.variant
      ensures !Unsellable(s, req, other)
    {
      assert other in sorted;
      var j: nat :| j < |sorted| && sorted[j] == other;
      assert LineProblem(Read(s, req).lines[j]).None?;
    }
  }

  lemma NoFault(s: Shop, req: Request, line: CartLine)
    requires UniqueCart(CartOf(s, req.user)) && FirstProblem(Read(s, req).lines).None? && line in CartOf(s, req.user)
    ensures !Unsellable(s, req, line)
  {
    var sorted := ByVariant(CartOf(s, req.user));
    ByVariantAscends(CartOf(s, req.user));
    assert line in sorted;
    var j: nat :| j < |sorted| && sorted[j] == line;
    NoneBefore(Read(s, req).lines, j);
  }

  /** The orders that hold a redemption of the code. */
  function HoldersOf(rows: map<nat, Redemption>, code: nat): set<nat> {
    set i | i in rows && rows[i].code == code
  }

  /**
   * The code as a checkout reads it: its rules, how many orders hold a redemption of it, and whether one of the
   * customer's does.
   */
  lemma CodeIsRead(s: Shop, user: nat)
    ensures CodeOn(s, user).Some? <==> CartPromo(s, user).Some?
    ensures CartPromo(s, user).Some? ==>
              var p, code := CartPromo(s, user).value, CodeOn(s, user).value;
              && p == s.promos[code].(id := code, redemptions := p.redemptions, usedByShopper := p.usedByShopper)
              && p.redemptions == |HoldersOf(s.redemptions, code)|
              && (p.usedByShopper <==> exists i :: i in s.redemptions && s.redemptions[i] == Redemption(code, user))
  {
    if CodeOn(s, user).Some? {
      assert RedemptionsOf(s.redemptions, CodeOn(s, user).value) == HoldersOf(s.redemptions, CodeOn(s, user).value);
    }
  }

  /**
   * Empty cart, first faulty line, no tariff, code: a checkout is refused for the first of these that holds, and
   * for nothing else.
   */
  lemma CheckoutRefuses(s: Shop, req: Request)
    requires UniqueCart(CartOf(s, req.user))
    ensures
      var reply, cart := CreateOrder(s, req).reply, CartOf(s, req.user);
      var faulty := exists line :: line in cart && Unsellable(s, req, line);
      var coded := CartPromo(s, req.user).Some?;
      && (reply == Refused(EmptyCart) <==> cart == [])
      && (reply.Refused? && (reply.why.PriceUnavailable? || reply.why.StockShort?) <==> faulty)
      && (faulty ==> exists line :: FirstFault(s, req, line, reply.why))
      && (reply == Refused(NoShippingRate) <==> cart != [] && !faulty && req.currency !in s.catalog.rates)
      && (reply.Refused? && reply.why.PromoInvalid? ==> coded && reply.why.issue != Pricing.NoIssue)
      && (reply.Placed? || (reply.Refused? && reply.why.PromoInvalid?) <==>
            cart != [] && !faulty && req.currency in s.catalog.rates)
  {
    var v := Read(s, req);
    SortedLength(CartOf(s, req.user));
    ConflictUnreachable(s, req, v);
    if FirstProblem(v.lines).Some? {
      var line := FaultIsFirst(s, req);
      assert Unsellable(s, req, line);
    } else {
      forall line | line in CartOf(s, req.user)
        ensures !Unsellable(s, req, line)
      {
        NoFault(s, req, line);
      }
    }
    ProblemKind(v.lines);
  }

  // ----- Over runs ----------------------------------------------------------------------

  /** A run of one transaction is that transaction. */
  lemma RunOfOne(s: Shop, op: Op)
    ensures Run(s, [op]) == Apply(s, op).shop
  {
    assert [op][..0] == [];
    assert Run(s, []) == s;
  }

  /** And a run is whatever comes first followed by the rest. */
  lemma {:induction false} RunInTwo(s: Shop, first: seq<Op>, rest: seq<Op>)
    ensures Run(s, first + rest) == Run(Run(s, first), rest)
  {
    if rest == [] {
      assert first + rest == first;
    } else {
      RunInTwo(s, first, rest[..|rest| - 1]);
      assert (first + rest)[..|first + rest| - 1] == first + rest[..|rest| - 1];
    }
  }

  /** At step k the order is called off: by the shop, or by the customer who owns it at that moment. */
  ghost predicate CalledOffAt(s: Shop, ops: seq<Op>, k: nat, id: nat) {
    && k < |ops| && id < |Run(s, ops[..k]).orders|
    && MovesTo(Run(s, ops[..k]), ops[k], id) == Some(Cancelled)
  }

  lemma CalledOffLater(s: Shop, ops: seq<Op>, k: nat, id: nat)
    requires ops != [] && CalledOffAt(s, ops[..|ops| - 1], k, id)
    ensures CalledOffAt(s, ops, k, id)
  {
    assert ops[..|ops| - 1][..k] == ops[..k];
  }

  lemma CancelledStep(s: Shop, op: Op, id: nat)
    requires id < |s.orders| && s.orders[id].status != Cancelled
    requires id < |Apply(s, op).shop.orders| && Apply(s, op).shop.orders[id].status == Cancelled
    ensures MovesTo(s, op, id) == Some(Cancelled)
    ensures op == Advance(id, Cancelled) || (op.CustomerCancel? && op.id == id && s.orders[id].user == Some(op.user))
  {
    OrderMoves(s, op, id);
  }

  /**
   * An order that is live and later cancelled was called off at one moment of the run, by the shop or by the
   * customer who owned it then; nobody else's request does it.
   */
  lemma {:induction false} WhoCancelled(s: Shop, ops: seq<Op>, id: nat) returns (k: nat)
    requires id < |s.orders| && s.orders[id].status != Cancelled
    requires id < |Run(s, ops).orders| && Run(s, ops).orders[id].status == Cancelled
    ensures CalledOffAt(s, ops, k, id)
    ensures ops[k] == Advance(id, Cancelled)
            || (ops[k].CustomerCancel? && ops[k].id == id && Run(s, ops[..k]).orders[id].user == Some(ops[k].user))
  {
    var n := |ops| - 1;
    var front := ops[..n];
    RunGrows(s, front);
    if Run(s, front).orders[id].status == Cancelled {
      k := WhoCancelled(s, front, id);
      CalledOffLater(s, ops, k, id);
      assert front[k] == ops[k] && front[..k] == ops[..k];
    } else {
      CancelledStep(Run(s, front), ops[n], id);
      k := n;
    }
  }

  /** The money of an order moves at one moment by a mark of the shop, or as cash with the parcel. */
  ghost predicate PaidAt(s: Shop, ops: seq<Op>, k: nat, id: nat) {
    && k < |ops| && id < |Run(s, ops[..k]).orders|
    && var before := Run(s, ops[..k]);
       Marks(before, ops[k], id).Some? || Settles(before.orders[id], MovesTo(before, ops[k], id))
  }

  lemma PaidStep(s: Shop, op: Op, id: nat)
    requires id < |s.orders| && s.orders[id].payment == Unpaid
    requires id < |Apply(s, op).shop.orders| && Apply(s, op).shop.orders[id].payment != Unpaid
    ensures Marks(s, op, id).Some? || Settles(s.orders[id], MovesTo(s, op, id))
    ensures op == Pay(id, Paid) || (op == Advance(id, Delivered) && s.orders[id].how == CashOnDelivery)
  {
    OrderMoves(s, op, id);
  }

  lemma PaidLater(s: Shop, ops: seq<Op>, k: nat, id: nat)
    requires ops != [] && PaidAt(s, ops[..|ops| - 1], k, id)
    ensures PaidAt(s, ops, k, id)
    ensures ops[..|ops| - 1][..k] == ops[..k] && ops[..|ops| - 1][k] == ops[k]
  {
    assert ops[..|ops| - 1][..k] == ops[..k];
  }

  /** An order that stopped being unpaid was marked by the shop, or was cash on delivery and was delivered. */
  lemma {:induction false} HowItWasPaid(s: Shop, ops: seq<Op>, id: nat) returns (k: nat)
    requires id < |s.orders| && s.orders[id].payment == Unpaid
    requires id < |Run(s, ops).orders| && Run(s, ops).orders[id].payment != Unpaid
    ensures PaidAt(s, ops, k, id)
    ensures ops[k] == Pay(id, Paid)
            || (ops[k] == Advance(id, Delivered) && Run(s, ops[..k]).orders[id].how == CashOnDelivery)
  {
    var n := |ops| - 1;
    var front := ops[..n];
    RunGrows(s, front);
    if Run(s, front).orders[id].payment != Unpaid {
      k := HowItWasPaid(s, front, id);
      PaidLater(s, ops, k, id);
    } else {
      PaidStep(Run(s, front), ops[n], id);
      k := n;
    }
  }

  /** Units of a variant in an order, called off or not. */
  function UnitsFor(v: nat): Order -> int {
    (o: Order) => QtyOf(o.items, v)
  }

  /** Units of a variant ordered so far. */
  function Ordered(orders: seq<Order>): nat -> int {
    (v: nat) => Tally(orders, UnitsFor(v))
  }

  ghost predicate AllInStock(orders: seq<Order>, stock: map<nat, int>) {
    forall i | 0 <= i < |orders| :: InStock(orders[i].items, stock)
  }

  lemma SumOfZero(vs: set<nat>, f: nat -> int)
    requires forall v | v in vs :: f(v) == 0
    ensures SumOver(vs, f) == 0
    decreases vs
  {
    if vs != {} {
      var v :| v in vs;
      SumOverPick(vs, f, v);
      SumOfZero(vs - {v}, f);
    }
  }

  lemma {:induction false} TallyIsUnits(s: Shop, orders: seq<Order>, product: nat)
    requires AllInStock(orders, s.stock)
    ensures Tally(orders, SoldBy(s.catalog.productOf, product)) == SumOver(VariantsOf(s, product), Ordered(orders))
  {
    var vs := VariantsOf(s, product);
    if orders == [] {
      SumOfZero(vs, Ordered(orders));
    } else {
      var front, last := orders[..|orders| - 1], orders[|orders| - 1];
      TallyIsUnits(s, front, product);
      SoldIsUnits(s, last.items, product);
      SumOverAdds(vs, Ordered(front), UnitsIn(last.items), Ordered(orders));
    }
  }

  lemma {:induction false} RunKeepsShelfNames(s: Shop, ops: seq<Op>)
    requires BooksSound(s)
    ensures Run(s, ops).stock.Keys == s.stock.Keys
    ensures Run(s, ops).catalog.productOf == s.catalog.productOf
  {
    if ops != [] {
      var before, op := Run(s, ops[..|ops| - 1]), ops[|ops| - 1];
      RunKeepsShelfNames(s, ops[..|ops| - 1]);
      RunKeeps(s, ops[..|ops| - 1]);
      StepKeepsShelfNames(before, op);
    }
  }

  lemma StepKeepsShelfNames(s: Shop, op: Op)
    requires BooksSound(s)
    ensures Apply(s, op).shop.stock.Keys == s.stock.Keys
    ensures Apply(s, op).shop.catalog.productOf == s.catalog.productOf
  {
    if v :| v in s.stock {
      ShelfMoves(s, op, v);
    } else {
      assert s.stock.Keys == {};
      EmptyShelfStays(s, op);
    }
    if op.Checkout? {
      CheckoutShape(s, op.req);
    } else {
      OtherStepsSellNothing(s, op);
    }
  }

  lemma EmptyShelfStays(s: Shop, op: Op)
    requires s.stock.Keys == {}
    ensures Apply(s, op).shop.stock.Keys == {}
  {
    match op {
      case Checkout(req) => CheckoutShape(s, req);
      case Shelve(_, _) =>
      case Advance(_, _) =>
      case CustomerCancel(_, _) =>
      case _ => OthersKeepShelf(s, op);
    }
  }

  /**
   * Over any run a product's counter grows by the units of its variants that were ordered meanwhile, whether
   * the orders were called off later or not.
   */
  lemma SalesOverRuns(s: Shop, ops: seq<Op>, product: nat)
    requires BooksSound(s) && product in s.sales
    ensures product in Run(s, ops).sales
    ensures Run(s, ops).sales[product] - s.sales[product] ==
            SumOver(VariantsOf(s, product), Ordered(Run(s, ops).orders))
            - SumOver(VariantsOf(s, product), Ordered(s.orders))
  {
    var s' := Run(s, ops);
    DriftStays(s, ops, product);
    RunKeeps(s, ops);
    RunKeepsShelfNames(s, ops);
    OrdersAreInStock(s);
    OrdersAreInStock(s');
    TallyIsUnits(s, s.orders, product);
    TallyIsUnits(s', s'.orders, product);
    SameVariants(s, s', product);
  }

  lemma SameVariants(s: Shop, s': Shop, product: nat)
    requires s'.stock.Keys == s.stock.Keys && s'.catalog.productOf == s.catalog.productOf
    ensures VariantsOf(s', product) == VariantsOf(s, product)
  {
  }

  lemma OrdersAreInStock(s: Shop)
    requires BooksSound(s)
    ensures AllInStock(s.orders, s.stock)
  {
  }
}
