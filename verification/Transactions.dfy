/**
 * The tables the order transactions share, and what each transaction does to
 * them as a function from the state before to the state after and the reply
 * (backend/internal/store/orders.go, cart.go, promos.go, users.go).
 *
 * `CreateOrder` is split the way the transaction is: `Read` gathers every fact
 * it depends on, `Decide` judges them, `Publish` writes. Orders are numbered
 * by the position at which they commit.
 */
module Transactions {
  import opened Wrappers
  import opened Money
  import opened Pricing
  import opened Lifecycle

  datatype CartLine = CartLine(variant: nat, qty: int)

  datatype Item = Item(variant: nat, price: int, qty: int)

  datatype Request = Request(user: nat, currency: Currency, how: PaymentMethod, now: int)

  /** `prior` is the count of non-cancelled orders the checkout was priced with. */
  datatype Order = Order(
    user: Option<nat>,
    status: Status,
    payment: PaymentStatus,
    how: PaymentMethod,
    currency: Currency,
    totals: Totals,
    promo: Option<nat>,
    items: seq<Item>,
    events: seq<Status>,
    prior: nat)

  datatype Redemption = Redemption(code: nat, user: nat)

  /** What the order transactions read and never write. */
  datatype Catalog = Catalog(
    productOf: map<nat, nat>,
    cold: set<nat>,
    active: set<nat>,
    prices: map<nat, Money>,
    rates: map<Currency, ShippingRate>)

  /** `supplied` records what the shop has put on the shelf, variant by variant. */
  datatype Shop = Shop(
    catalog: Catalog,
    stock: map<nat, int>,
    supplied: map<nat, int>,
    sales: map<nat, int>,
    carts: map<nat, seq<CartLine>>,
    cartPromo: map<nat, nat>,
    promos: map<nat, Promo>,
    orders: seq<Order>,
    redemptions: map<nat, Redemption>)

  datatype Refusal =
    | EmptyCart
    | PriceUnavailable(variant: nat)
    | NoShippingRate
    | StockShort(variant: nat, available: int)
    | PromoInvalid(issue: Issue)
    | RedemptionConflict
    | NotFound
    | InvalidTransition
    | TooLateToCancel
    | CheckViolation
    | CodeTaken
    | LastAdminStays
    | InternalError

  datatype MergeIssue = AddedInFull | Unavailable | OutOfStock | Reduced

  datatype MergeLine = MergeLine(variant: nat, qty: int, issue: MergeIssue)

  datatype Reply = Done | Placed(id: nat) | Merged(lines: seq<MergeLine>) | Refused(why: Refusal)

  datatype Outcome = Outcome(shop: Shop, reply: Reply)

  // ----- Small lookups --------------------------------------------------------

  function At(m: map<nat, int>, k: nat): int {
    if k in m then m[k] else 0
  }

  function ProductOf(productOf: map<nat, nat>, variant: nat): nat {
    if variant in productOf then productOf[variant] else 0
  }

  function CartOf(s: Shop, user: nat): seq<CartLine> {
    if user in s.carts then s.carts[user] else []
  }

  function PriceIn(c: Catalog, variant: nat, currency: Currency): Option<int> {
    if variant in c.prices && currency in c.prices[variant] then Some(c.prices[variant][currency]) else None
  }

  predicate Live(o: Order) {
    o.status != Cancelled
  }

  // ----- Sums over items and orders -------------------------------------------

  /** Units of one variant among the items. */
  function QtyOf(items: seq<Item>, variant: nat): int {
    if items == [] then 0
    else
      var last := items[|items| - 1];
      QtyOf(items[..|items| - 1], variant) + if last.variant == variant then last.qty else 0
  }

  /** Units of one product among the items. */
  function SoldOf(items: seq<Item>, productOf: map<nat, nat>, product: nat): int {
    if items == [] then 0
    else
      var last := items[|items| - 1];
      SoldOf(items[..|items| - 1], productOf, product)
      + if ProductOf(productOf, last.variant) == product then last.qty else 0
  }

  /**
   * What an UPDATE joined to the items gives back to a variant: one matching
   * row is applied, however many match.
   */
  function RestoredQty(items: seq<Item>, variant: nat): int {
    if items == [] then 0
    else
      var last := items[|items| - 1];
      if last.variant == variant then last.qty else RestoredQty(items[..|items| - 1], variant)
  }

  /** Adds a weight over all the orders. */
  function Tally(orders: seq<Order>, w: Order -> int): int {
    if orders == [] then 0
    else Tally(orders[..|orders| - 1], w) + w(orders[|orders| - 1])
  }

  function LiveOf(user: nat): Order -> int {
    (o: Order) => if Live(o) && o.user == Some(user) then 1 else 0
  }

  function ReservedBy(variant: nat): Order -> int {
    (o: Order) => if Live(o) then QtyOf(o.items, variant) else 0
  }

  function SoldBy(productOf: map<nat, nat>, product: nat): Order -> int {
    (o: Order) => SoldOf(o.items, productOf, product)
  }

  /** The hive-club fact: how many non-cancelled orders the customer has. */
  function PriorOrders(s: Shop, user: nat): int {
    Tally(s.orders, LiveOf(user))
  }

  function RedemptionsOf(redemptions: map<nat, Redemption>, code: nat): set<nat> {
    set i | i in redemptions && redemptions[i].code == code
  }

  predicate UsedBy(redemptions: map<nat, Redemption>, code: nat, user: nat) {
    Redemption(code, user) in redemptions.Values
  }

  // ----- Reading a checkout -----------------------------------------------------

  datatype LineView = LineView(
    variant: nat,
    qty: int,
    stock: int,
    product: nat,
    cold: bool,
    price: Option<int>)

  datatype View = View(lines: seq<LineView>, rate: Option<ShippingRate>, promo: Option<Promo>, prior: int)

  function InsertByVariant(line: CartLine, sorted: seq<CartLine>): seq<CartLine> {
    if sorted == [] || line.variant <= sorted[0].variant then [line] + sorted
    else [sorted[0]] + InsertByVariant(line, sorted[1..])
  }

  /** The cart in ascending variant order, the order its rows are locked in. */
  function ByVariant(cart: seq<CartLine>): seq<CartLine> {
    if cart == [] then [] else InsertByVariant(cart[0], ByVariant(cart[1..]))
  }

  function ReadLine(s: Shop, line: CartLine, currency: Currency): LineView {
    var product := ProductOf(s.catalog.productOf, line.variant);
    LineView(line.variant, line.qty, At(s.stock, line.variant), product, product in s.catalog.cold,
             PriceIn(s.catalog, line.variant, currency))
  }

  function ReadLines(s: Shop, lines: seq<CartLine>, currency: Currency): (views: seq<LineView>)
    ensures |views| == |lines|
    ensures forall i | 0 <= i < |lines| :: views[i] == ReadLine(s, lines[i], currency)
  {
    seq(|lines|, i requires 0 <= i < |lines| => ReadLine(s, lines[i], currency))
  }

  /** A code's rules with the live counts filled in for one shopper. */
  function PromoView(s: Shop, code: nat, user: nat): Option<Promo> {
    if code !in s.promos then None
    else Some(s.promos[code].(id := code,
                              redemptions := |RedemptionsOf(s.redemptions, code)|,
                              usedByShopper := UsedBy(s.redemptions, code, user)))
  }

  function CartPromo(s: Shop, user: nat): Option<Promo> {
    if user in s.cartPromo then PromoView(s, s.cartPromo[user], user) else None
  }

  function RateIn(c: Catalog, currency: Currency): Option<ShippingRate> {
    if currency in c.rates then Some(c.rates[currency]) else None
  }

  function Read(s: Shop, req: Request): View {
    View(ReadLines(s, ByVariant(CartOf(s, req.user)), req.currency),
         RateIn(s.catalog, req.currency),
         CartPromo(s, req.user),
         PriorOrders(s, req.user))
  }

  // ----- Deciding a checkout ----------------------------------------------------

  function LineProblem(l: LineView): Option<Refusal> {
    if l.price.None? then Some(PriceUnavailable(l.variant))
    else if l.stock < l.qty then Some(StockShort(l.variant, l.stock))
    else None
  }

  /** The first line, in lock order, that cannot be sold. */
  function FirstProblem(lines: seq<LineView>): Option<Refusal> {
    if lines == [] then None
    else
      var earlier := FirstProblem(lines[..|lines| - 1]);
      if earlier.Some? then earlier else LineProblem(lines[|lines| - 1])
  }

  function LinePrice(l: LineView): int {
    if l.price.Some? then l.price.value else 0
  }

  function Subtotal(lines: seq<LineView>): int {
    if lines == [] then 0
    else
      var last := lines[|lines| - 1];
      Subtotal(lines[..|lines| - 1]) + LinePrice(last) * last.qty
  }

  predicate AnyCold(lines: seq<LineView>) {
    exists i | 0 <= i < |lines| :: lines[i].cold
  }

  function ItemOf(l: LineView): Item {
    Item(l.variant, LinePrice(l), l.qty)
  }

  function ItemsOf(lines: seq<LineView>): (items: seq<Item>)
    ensures |items| == |lines|
    ensures forall i | 0 <= i < |lines| :: items[i] == ItemOf(lines[i])
  {
    seq(|lines|, i requires 0 <= i < |lines| => ItemOf(lines[i]))
  }

  function InputOf(v: View, rate: ShippingRate, req: Request): PriceInput {
    PriceInput(req.currency, Subtotal(v.lines), AnyCold(v.lines), rate, v.prior, v.promo, req.now)
  }

  function Nat(n: int): nat {
    if n < 0 then 0 else n
  }

  function Decide(v: View, req: Request): Result<Order, Refusal> {
    if v.lines == [] then Failure(EmptyCart)
    else if FirstProblem(v.lines).Some? then Failure(FirstProblem(v.lines).value)
    else if v.rate.None? then Failure(NoShippingRate)
    else
      var b := Quote(InputOf(v, v.rate.value, req));
      if v.promo.Some? && b.issue != NoIssue then Failure(PromoInvalid(b.issue))
      else
        Success(Order(Some(req.user), Pending, Unpaid, req.how, req.currency, b.totals,
                      if v.promo.Some? then Some(v.promo.value.id) else None,
                      ItemsOf(v.lines), [Pending], Nat(v.prior)))
  }

  // ----- Writing a checkout -----------------------------------------------------

  function StockAfter(stock: map<nat, int>, items: seq<Item>): map<nat, int> {
    map v | v in stock :: stock[v] - QtyOf(items, v)
  }

  function SalesAfter(s: Shop, items: seq<Item>): map<nat, int> {
    map p | p in s.sales :: s.sales[p] + SoldOf(items, s.catalog.productOf, p)
  }

  function Publish(s: Shop, user: nat, o: Order): Shop {
    s.(stock := StockAfter(s.stock, o.items),
       sales := SalesAfter(s, o.items),
       orders := s.orders + [o],
       redemptions := if o.promo.Some? then s.redemptions[|s.orders| := Redemption(o.promo.value, user)]
                      else s.redemptions,
       carts := s.carts[user := []],
       cartPromo := s.cartPromo - {user})
  }

  /** The unique index on (code, user) would refuse this order's redemption row. */
  predicate Conflicts(s: Shop, user: nat, o: Order) {
    o.promo.Some? && UsedBy(s.redemptions, o.promo.value, user)
  }

  /** What a checkout does once it has read: refuse, or write the order. */
  function Settle(s: Shop, req: Request, v: View): Outcome {
    match Decide(v, req)
    case Failure(why) => Outcome(s, Refused(why))
    case Success(o) =>
      if Conflicts(s, req.user, o) then Outcome(s, Refused(RedemptionConflict))
      else Outcome(Publish(s, req.user, o), Placed(|s.orders|))
  }

  function CreateOrder(s: Shop, req: Request): Outcome {
    Settle(s, req, Read(s, req))
  }

  // ----- Status and payment -----------------------------------------------------

  function StockRestored(stock: map<nat, int>, items: seq<Item>): map<nat, int> {
    map v | v in stock :: stock[v] + RestoredQty(items, v)
  }

  function Advanced(o: Order, to: Status): Order {
    o.(status := to,
       events := o.events + [to],
       payment := if to == Delivered && SettlesOnDelivery(o.how) && o.payment == Unpaid then Paid else o.payment)
  }

  /** The write half of a status change, with its side effects. */
  function WithStatus(s: Shop, id: nat, to: Status): Shop
    requires id < |s.orders|
  {
    var moved := s.(orders := s.orders[id := Advanced(s.orders[id], to)]);
    if to == Cancelled then
      moved.(stock := StockRestored(s.stock, s.orders[id].items), redemptions := s.redemptions - {id})
    else moved
  }

  function UpdateOrderStatus(s: Shop, id: nat, to: Status): Outcome {
    if id >= |s.orders| then Outcome(s, Refused(NotFound))
    else if !ValidTransition(s.orders[id].status, to) then Outcome(s, Refused(InvalidTransition))
    else Outcome(WithStatus(s, id, to), Done)
  }

  function CancelOrderByCustomer(s: Shop, user: nat, id: nat): Outcome {
    if id >= |s.orders| || s.orders[id].user != Some(user) then Outcome(s, Refused(NotFound))
    else if !CustomerMayCancel(s.orders[id].status) then Outcome(s, Refused(TooLateToCancel))
    else Outcome(WithStatus(s, id, Cancelled), Done)
  }

  function UpdatePaymentStatus(s: Shop, id: nat, to: PaymentStatus): Outcome {
    if id >= |s.orders| then Outcome(s, Refused(NotFound))
    else if !ValidPayment(s.orders[id].payment, to) then Outcome(s, Refused(InvalidTransition))
    else Outcome(s.(orders := s.orders[id := s.orders[id].(payment := to)]), Done)
  }

  // ----- Cart, codes, shelf and accounts ------------------------------------------

  function QtyInCart(cart: seq<CartLine>, variant: nat): int {
    if cart == [] then 0
    else if cart[0].variant == variant then cart[0].qty
    else QtyInCart(cart[1..], variant)
  }

  /** The upsert on (user, variant): an existing line takes the new quantity in place. */
  function SetLine(cart: seq<CartLine>, variant: nat, qty: int): seq<CartLine> {
    if cart == [] then [CartLine(variant, qty)]
    else if cart[0].variant == variant then [CartLine(variant, qty)] + cart[1..]
    else [cart[0]] + SetLine(cart[1..], variant, qty)
  }

  function DropLine(cart: seq<CartLine>, variant: nat): seq<CartLine> {
    if cart == [] then []
    else if cart[0].variant == variant then cart[1..]
    else [cart[0]] + DropLine(cart[1..], variant)
  }

  function SetCartItem(s: Shop, user: nat, variant: nat, qty: int): Outcome {
    if variant !in s.stock then Outcome(s, Refused(NotFound))
    else if qty <= 0 then Outcome(s, Refused(CheckViolation))
    else Outcome(s.(carts := s.carts[user := SetLine(CartOf(s, user), variant, qty)]), Done)
  }

  function DeleteCartItem(s: Shop, user: nat, variant: nat): Outcome {
    Outcome(s.(carts := s.carts[user := DropLine(CartOf(s, user), variant)]), Done)
  }

  function SetCartPromo(s: Shop, user: nat, code: nat): Outcome {
    if code !in s.promos then Outcome(s, Refused(NotFound))
    else Outcome(s.(cartPromo := s.cartPromo[user := code]), Done)
  }

  function ClearCartPromo(s: Shop, user: nat): Outcome {
    Outcome(s.(cartPromo := s.cartPromo - {user}), Done)
  }

  /** Another code already has this text. */
  predicate TextTaken(promos: map<nat, Promo>, text: seq<Byte>, code: nat) {
    exists other | other in promos :: other != code && promos[other].text == text
  }

  /** A new code under a number never used before; the unique index refuses a text that is taken. */
  function CreatePromo(s: Shop, code: nat, rules: Promo): Outcome {
    if code in s.promos || TextTaken(s.promos, rules.text, code) then Outcome(s, Refused(CodeTaken))
    else Outcome(s.(promos := s.promos[code := rules]), Done)
  }

  /** Text and rules of an existing code are replaced; its redemption rows stay. */
  function UpdatePromo(s: Shop, code: nat, rules: Promo): Outcome {
    if code !in s.promos then Outcome(s, Refused(NotFound))
    else if TextTaken(s.promos, rules.text, code) then Outcome(s, Refused(CodeTaken))
    else Outcome(s.(promos := s.promos[code := rules]), Done)
  }

  /** The admin sets the shelf count outright; the difference counts as supplied. */
  function SetStock(s: Shop, variant: nat, qty: int): Outcome {
    if variant !in s.stock then Outcome(s, Refused(NotFound))
    else if qty < 0 then Outcome(s, Refused(CheckViolation))
    else
      Outcome(s.(stock := s.stock[variant := qty],
                 supplied := s.supplied[variant := At(s.supplied, variant) + qty - s.stock[variant]]),
              Done)
  }

  /** Prices, rates and flags change freely; a variant never changes product. */
  function EditCatalog(s: Shop, c: Catalog): Outcome {
    Outcome(s.(catalog := c.(productOf := s.catalog.productOf)), Done)
  }

  function Detached(o: Order, user: nat): Order {
    if o.user == Some(user) then o.(user := None) else o
  }

  function DetachAll(orders: seq<Order>, user: nat): (kept: seq<Order>)
    ensures |kept| == |orders|
    ensures forall i | 0 <= i < |orders| :: kept[i] == Detached(orders[i], user)
  {
    seq(|orders|, i requires 0 <= i < |orders| => Detached(orders[i], user))
  }

  /** The order-side half of deleting an account: orders outlive it, everything else goes. */
  function DeleteAccount(s: Shop, user: nat): Outcome {
    Outcome(s.(orders := DetachAll(s.orders, user),
               redemptions := map i | i in s.redemptions && s.redemptions[i].user != user :: s.redemptions[i],
               carts := s.carts - {user},
               cartPromo := s.cartPromo - {user}),
            Done)
  }

  // ----- Reorder ------------------------------------------------------------------

  const MAX_CART_LINE := 99

  /** One order line's fate, judged against the cart as it was before the merge. */
  function MergeLineOf(s: Shop, user: nat, item: Item): MergeLine {
    MergedInto(s, item, QtyInCart(CartOf(s, user), item.variant))
  }

  function MergedInto(s: Shop, item: Item, inCart: int): MergeLine {
    var room := Min(At(s.stock, item.variant), MAX_CART_LINE) - inCart;
    if ProductOf(s.catalog.productOf, item.variant) !in s.catalog.active then MergeLine(item.variant, 0, Unavailable)
    else if room <= 0 then MergeLine(item.variant, 0, OutOfStock)
    else MergeLine(item.variant, Min(item.qty, room), if room < item.qty then Reduced else AddedInFull)
  }

  function MergeLines(s: Shop, user: nat, items: seq<Item>): (lines: seq<MergeLine>)
    ensures |lines| == |items|
    ensures forall i | 0 <= i < |items| :: lines[i] == MergeLineOf(s, user, items[i])
  {
    seq(|items|, i requires 0 <= i < |items| => MergeLineOf(s, user, items[i]))
  }

  function AddLines(cart: seq<CartLine>, lines: seq<MergeLine>): seq<CartLine> {
    if lines == [] then cart
    else
      var last := lines[|lines| - 1];
      var before := AddLines(cart, lines[..|lines| - 1]);
      if last.issue in {Unavailable, OutOfStock} then before
      else SetLine(before, last.variant, QtyInCart(before, last.variant) + last.qty)
  }

  /** A detached order has no owner to compare with: reading one fails before the comparison. */
  function Reorder(s: Shop, user: nat, id: nat): Outcome {
    if id >= |s.orders| then Outcome(s, Refused(NotFound))
    else if s.orders[id].user.None? then Outcome(s, Refused(InternalError))
    else if s.orders[id].user != Some(user) then Outcome(s, Refused(NotFound))
    else
      var lines := MergeLines(s, user, s.orders[id].items);
      Outcome(s.(carts := s.carts[user := AddLines(CartOf(s, user), lines)]), Merged(lines))
  }

  // ----- Runs -----------------------------------------------------------------------

  datatype Op =
    | Checkout(req: Request)
    | Advance(id: nat, to: Status)
    | CustomerCancel(user: nat, id: nat)
    | Pay(id: nat, payment: PaymentStatus)
    | PutInCart(user: nat, variant: nat, qty: int)
    | TakeFromCart(user: nat, variant: nat)
    | ApplyCode(user: nat, code: nat)
    | RemoveCode(user: nat)
    | Again(user: nat, id: nat)
    | AddPromo(code: nat, rules: Promo)
    | EditPromo(code: nat, rules: Promo)
    | Shelve(variant: nat, qty: int)
    | Reprice(catalog: Catalog)
    | CloseAccount(user: nat)

  predicate OrderOp(op: Op) {
    op.Checkout? || op.Advance? || op.CustomerCancel? || op.Pay? || op.CloseAccount?
  }

  function Apply(s: Shop, op: Op): Outcome {
    match op
    case Checkout(req) => CreateOrder(s, req)
    case Advance(id, to) => UpdateOrderStatus(s, id, to)
    case CustomerCancel(user, id) => CancelOrderByCustomer(s, user, id)
    case Pay(id, payment) => UpdatePaymentStatus(s, id, payment)
    case PutInCart(user, variant, qty) => SetCartItem(s, user, variant, qty)
    case TakeFromCart(user, variant) => DeleteCartItem(s, user, variant)
    case ApplyCode(user, code) => SetCartPromo(s, user, code)
    case RemoveCode(user) => ClearCartPromo(s, user)
    case Again(user, id) => Reorder(s, user, id)
    case AddPromo(code, rules) => CreatePromo(s, code, rules)
    case EditPromo(code, rules) => UpdatePromo(s, code, rules)
    case Shelve(variant, qty) => SetStock(s, variant, qty)
    case Reprice(catalog) => EditCatalog(s, catalog)
    case CloseAccount(user) => DeleteAccount(s, user)
  }

  function Run(s: Shop, ops: seq<Op>): Shop {
    if ops == [] then s else Apply(Run(s, ops[..|ops| - 1]), ops[|ops| - 1]).shop
  }
}
