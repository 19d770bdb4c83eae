/**
 * The second path to the same price: the cart read back row by row, totalled in
 * every market and quoted (backend/internal/store/cart.go,
 * backend/internal/api/checkout.go), against what CreateOrder charges.
 */
module Preview {
  import opened Wrappers
  import opened Money
  import opened Pricing
  import opened Transactions
  import opened Sorting
  import Ledger
  import History
  import Store

  // ----- Reading the cart back --------------------------------------------------------

  /** One row per cart line and market it is priced in. */
  datatype CartRow = CartRow(variant: nat, qty: int, cold: bool, currency: Currency, price: int)

  function RowIn(s: Shop, line: CartLine, c: Currency): seq<CartRow> {
    var price := PriceIn(s.catalog, line.variant, c);
    if price.None? then []
    else [CartRow(line.variant, line.qty, ProductOf(s.catalog.productOf, line.variant) in s.catalog.cold, c, price.value)]
  }

  /** The inner join with the priced markets, currencies in alphabetical order. */
  function LineRows(s: Shop, line: CartLine): seq<CartRow> {
    RowIn(s, line, AMD) + RowIn(s, line, USD)
  }

  function CartRows(s: Shop, cart: seq<CartLine>): seq<CartRow> {
    if cart == [] then [] else CartRows(s, cart[..|cart| - 1]) + LineRows(s, cart[|cart| - 1])
  }

  function AddRow(items: seq<CartItem>, r: CartRow): seq<CartItem> {
    if items == [] || items[|items| - 1].variant != r.variant then
      items + [CartItem(r.variant, r.qty, r.cold, map[r.currency := r.price])]
    else
      var last := items[|items| - 1];
      items[|items| - 1 := last.(prices := last.prices[r.currency := r.price])]
  }

  function Grouped(rows: seq<CartRow>): seq<CartItem> {
    if rows == [] then [] else AddRow(Grouped(rows[..|rows| - 1]), rows[|rows| - 1])
  }

  /** Consecutive rows of one variant become one line, through a moving current line. */
  method GroupRows(rows: seq<CartRow>) returns (items: seq<CartItem>)
    ensures items == Grouped(rows)
  {
    items := [];
    var current := -1;
    for i := 0 to |rows|
      invariant items == Grouped(rows[..i])
      invariant current == |items| - 1
    {
      assert rows[..i + 1][..i] == rows[..i];
      var r := rows[i];
      if current == -1 || items[current].variant != r.variant {
        items := items + [CartItem(r.variant, r.qty, r.cold, map[])];
        current := |items| - 1;
      }
      items := items[current := items[current].(prices := items[current].prices[r.currency := r.price])];
    }
    assert rows[..|rows|] == rows;
  }

  /** The line the customer should see. */
  function ItemFor(s: Shop, line: CartLine): CartItem {
    CartItem(line.variant, line.qty, ProductOf(s.catalog.productOf, line.variant) in s.catalog.cold,
             map c | c in CURRENCIES && PriceIn(s.catalog, line.variant, c).Some? ::
               PriceIn(s.catalog, line.variant, c).value)
  }

  predicate Priced(s: Shop, line: CartLine) {
    PriceIn(s.catalog, line.variant, AMD).Some? || PriceIn(s.catalog, line.variant, USD).Some?
  }

  /** Lines in cart order, less those no market has a price for. */
  function ItemsFor(s: Shop, cart: seq<CartLine>): seq<CartItem> {
    if cart == [] then []
    else
      var front, last := ItemsFor(s, cart[..|cart| - 1]), cart[|cart| - 1];
      if Priced(s, last) then front + [ItemFor(s, last)] else front
  }

  lemma GroupedSnoc(rows: seq<CartRow>, r: CartRow)
    ensures Grouped(rows + [r]) == AddRow(Grouped(rows), r)
  {
    assert (rows + [r])[..|rows|] == rows;
  }

  lemma {:induction false} ItemsComeFromLines(s: Shop, cart: seq<CartLine>, i: nat) returns (k: nat)
    requires i < |ItemsFor(s, cart)|
    ensures k < |cart| && ItemsFor(s, cart)[i].variant == cart[k].variant
  {
    var front := cart[..|cart| - 1];
    if i < |ItemsFor(s, front)| {
      k := ItemsComeFromLines(s, front, i);
    } else {
      k := |cart| - 1;
    }
  }

  lemma EveryCurrency(c: Currency)
    ensures c in CURRENCIES
  {
    assert c == USD || c == AMD;
  }

  lemma OneRow(rows: seq<CartRow>, items: seq<CartItem>, r: CartRow)
    requires Grouped(rows) == items
    requires items == [] || items[|items| - 1].variant != r.variant
    ensures Grouped(rows + [r]) == items + [CartItem(r.variant, r.qty, r.cold, map[r.currency := r.price])]
  {
    GroupedSnoc(rows, r);
  }

  lemma TwoRows(rows: seq<CartRow>, items: seq<CartItem>, r: CartRow, r2: CartRow)
    requires Grouped(rows) == items
    requires items == [] || items[|items| - 1].variant != r.variant
    requires r2.variant == r.variant
    ensures Grouped(rows + [r] + [r2]) ==
            items + [CartItem(r.variant, r.qty, r.cold, map[r.currency := r.price][r2.currency := r2.price])]
  {
    OneRow(rows, items, r);
    GroupedSnoc(rows + [r], r2);
  }

  lemma ItemPrices(s: Shop, line: CartLine)
    ensures
      var amd, usd := PriceIn(s.catalog, line.variant, AMD), PriceIn(s.catalog, line.variant, USD);
      ItemFor(s, line).prices ==
        if amd.Some? && usd.Some? then map[AMD := amd.value][USD := usd.value]
        else if amd.Some? then map[AMD := amd.value]
        else if usd.Some? then map[USD := usd.value]
        else map[]
  {
    EveryCurrency(AMD);
    EveryCurrency(USD);
  }

  /** Two rows, or one, or none, of a line that follows other lines. */
  lemma GroupLine(s: Shop, rows: seq<CartRow>, items: seq<CartItem>, line: CartLine)
    requires Grouped(rows) == items
    requires items == [] || items[|items| - 1].variant != line.variant
    ensures Grouped(rows + LineRows(s, line)) == if Priced(s, line) then items + [ItemFor(s, line)] else items
  {
    var a, u := RowIn(s, line, AMD), RowIn(s, line, USD);
    ItemPrices(s, line);
    if a != [] && u != [] {
      assert rows + LineRows(s, line) == rows + [a[0]] + [u[0]];
      TwoRows(rows, items, a[0], u[0]);
    } else if a != [] {
      assert LineRows(s, line) == [a[0]];
      OneRow(rows, items, a[0]);
    } else if u != [] {
      assert LineRows(s, line) == [u[0]];
      OneRow(rows, items, u[0]);
    } else {
      assert rows + LineRows(s, line) == rows;
    }
  }

  /** Splitting a keyed cart into priced rows and grouping them again gives its lines back. */
  lemma {:induction false} GroupingRoundTrip(s: Shop, cart: seq<CartLine>)
    requires UniqueCart(cart)
    ensures Grouped(CartRows(s, cart)) == ItemsFor(s, cart)
  {
    if cart != [] {
      var front := cart[..|cart| - 1];
      GroupingRoundTrip(s, front);
      if ItemsFor(s, front) != [] {
        var k := ItemsComeFromLines(s, front, |ItemsFor(s, front)| - 1);
      }
      GroupLine(s, CartRows(s, front), ItemsFor(s, front), cart[|cart| - 1]);
    }
  }

  // ----- One sum, two orders ------------------------------------------------------------

  function UnitPrice(s: Shop, variant: nat, c: Currency): int {
    if PriceIn(s.catalog, variant, c).Some? then PriceIn(s.catalog, variant, c).value else 0
  }

  /** Price times quantity over the lines, first to last. */
  function CartSum(s: Shop, cart: seq<CartLine>, c: Currency): int {
    if cart == [] then 0
    else UnitPrice(s, cart[0].variant, c) * cart[0].qty + CartSum(s, cart[1..], c)
  }

  lemma {:induction false} CartSumSnoc(s: Shop, cart: seq<CartLine>, line: CartLine, c: Currency)
    ensures CartSum(s, cart + [line], c) == CartSum(s, cart, c) + UnitPrice(s, line.variant, c) * line.qty
  {
    if cart == [] {
      assert ([line])[1..] == [];
    } else {
      assert (cart + [line])[1..] == cart[1..] + [line];
      CartSumSnoc(s, cart[1..], line, c);
    }
  }

  lemma {:induction false} InsertKeepsSum(s: Shop, line: CartLine, sorted: seq<CartLine>, c: Currency)
    ensures CartSum(s, InsertByVariant(line, sorted), c) ==
            UnitPrice(s, line.variant, c) * line.qty + CartSum(s, sorted, c)
  {
    if sorted == [] || line.variant <= sorted[0].variant {
      assert ([line] + sorted)[1..] == sorted;
    } else {
      InsertKeepsSum(s, line, sorted[1..], c);
      var rest := InsertByVariant(line, sorted[1..]);
      assert ([sorted[0]] + rest)[1..] == rest;
    }
  }

  /** The order in which the cart was filled does not matter to the total. */
  lemma {:induction false} SortingKeepsSum(s: Shop, cart: seq<CartLine>, c: Currency)
    ensures CartSum(s, ByVariant(cart), c) == CartSum(s, cart, c)
  {
    if cart != [] {
      SortingKeepsSum(s, cart[1..], c);
      InsertKeepsSum(s, cart[0], ByVariant(cart[1..]), c);
    }
  }

  lemma {:induction false} SubtotalIsCartSum(s: Shop, cart: seq<CartLine>, c: Currency)
    ensures Subtotal(ReadLines(s, cart, c)) == CartSum(s, cart, c)
  {
    if cart != [] {
      var n := |cart| - 1;
      SubtotalIsCartSum(s, cart[..n], c);
      assert ReadLines(s, cart, c)[..n] == ReadLines(s, cart[..n], c);
      CartSumSnoc(s, cart[..n], cart[n], c);
      assert cart == cart[..n] + [cart[n]];
    }
  }

  ghost predicate AllPriced(s: Shop, cart: seq<CartLine>, c: Currency) {
    forall i | 0 <= i < |cart| :: PriceIn(s.catalog, cart[i].variant, c).Some?
  }

  lemma ItemPrice(s: Shop, line: CartLine, c: Currency)
    ensures c in ItemFor(s, line).prices <==> PriceIn(s.catalog, line.variant, c).Some?
    ensures (if c in ItemFor(s, line).prices then ItemFor(s, line).prices[c] * line.qty else 0)
            == UnitPrice(s, line.variant, c) * line.qty
  {
    EveryCurrency(c);
  }

  lemma {:induction false} ItemsAreLines(s: Shop, cart: seq<CartLine>)
    requires forall i | 0 <= i < |cart| :: Priced(s, cart[i])
    ensures |ItemsFor(s, cart)| == |cart|
    ensures forall i | 0 <= i < |cart| :: ItemsFor(s, cart)[i] == ItemFor(s, cart[i])
  {
    if cart != [] {
      ItemsAreLines(s, cart[..|cart| - 1]);
    }
  }

  /** What the totals of the grouped cart are, when every line has a price somewhere. */
  lemma {:induction false} ItemsTotals(s: Shop, cart: seq<CartLine>, c: Currency)
    requires forall i | 0 <= i < |cart| :: Priced(s, cart[i])
    ensures SumIn(ItemsFor(s, cart), c) == CartSum(s, cart, c)
  {
    if cart != [] {
      var front, last := cart[..|cart| - 1], cart[|cart| - 1];
      ItemsTotals(s, front, c);
      ItemPrice(s, last, c);
      CartSumSnoc(s, front, last, c);
      assert cart == front + [last];
      assert ItemsFor(s, cart) == ItemsFor(s, front) + [ItemFor(s, last)];
    }
  }

  lemma TotalsOfItems(s: Shop, cart: seq<CartLine>, c: Currency)
    requires forall i | 0 <= i < |cart| :: Priced(s, cart[i])
    ensures PricedIn(ItemsFor(s, cart), c) <==> AllPriced(s, cart, c)
    ensures SumIn(ItemsFor(s, cart), c) == CartSum(s, cart, c)
  {
    ItemsAreLines(s, cart);
    ItemsTotals(s, cart, c);
    forall i | 0 <= i < |cart|
      ensures c in ItemsFor(s, cart)[i].prices <==> PriceIn(s.catalog, cart[i].variant, c).Some?
    {
      ItemPrice(s, cart[i], c);
    }
    if PricedIn(ItemsFor(s, cart), c) {
      assert AllPriced(s, cart, c);
    }
  }

  // ----- The preview ------------------------------------------------------------------

  /** No quote means the figures of this market are absent. */
  datatype Response = Response(
    currency: Currency,
    quote: Option<Breakdown>,
    cold: bool,
    threshold: Option<int>,
    totals: map<Currency, int>)

  predicate AnyColdItem(items: seq<CartItem>) {
    exists i | 0 <= i < |items| :: items[i].cold
  }

  /** What one market is quoted, if every line and the delivery are priced in it. */
  ghost function QuoteIn(s: Shop, items: seq<CartItem>, user: nat, c: Currency, now: int): Option<Breakdown> {
    if items == [] || c !in s.catalog.rates || !PricedIn(items, c) then None
    else
      Some(Quote(PriceInput(c, SumIn(items, c), AnyColdItem(items), s.catalog.rates[c],
                            PriorOrders(s, user), CartPromo(s, user), now)))
  }

  /** The primary market's quote, and every market's total that keeps the same promo verdict. */
  ghost predicate IsPreview(s: Shop, items: seq<CartItem>, user: nat, primary: Currency, now: int, resp: Response) {
    var q := QuoteIn(s, items, user, primary, now);
    && resp.currency == primary
    && resp.quote == q
    && (q.None? ==> !resp.cold && resp.threshold.None? && resp.totals == map[])
    && (q.Some? ==>
          && resp.cold == AnyColdItem(items)
          && resp.threshold == (if q.value.remaining.Some? then s.catalog.rates[primary].freeOver else None)
          && (forall c :: c in resp.totals <==>
                QuoteIn(s, items, user, c, now).Some? && QuoteIn(s, items, user, c, now).value.issue == q.value.issue)
          && (forall c | c in resp.totals ::
                resp.totals[c] == QuoteIn(s, items, user, c, now).value.totals.total))
  }

  /** The one calculator, run for one market of the preview. */
  method QuoteMarket(store: Store.Store, items: seq<CartItem>, subtotals: Money, cold: bool, promo: Option<Promo>,
                     prior: int, user: nat, c: Currency, now: int) returns (quote: Option<Breakdown>)
    requires items != [] && AreTotals(items, subtotals) && cold == AnyColdItem(items)
    requires promo == CartPromo(store.State(), user) && prior == PriorOrders(store.State(), user)
    ensures quote == QuoteIn(store.State(), items, user, c, now)
  {
    if c !in store.catalog.rates || c !in subtotals {
      return None;
    }
    var b := Price(PriceInput(c, subtotals[c], cold, store.catalog.rates[c], prior, promo, now));
    quote := Some(b);
  }

  method AnyChilled(items: seq<CartItem>) returns (cold: bool)
    ensures cold == AnyColdItem(items)
  {
    cold := false;
    for i := 0 to |items|
      invariant cold == exists k | 0 <= k < i :: items[k].cold
    {
      if items[i].cold {
        cold := true;
      }
    }
  }

  /** The grand total in every market where the code fares as it does in the primary one. */
  method OtherTotals(store: Store.Store, items: seq<CartItem>, subtotals: Money, cold: bool, promo: Option<Promo>,
                     prior: int, user: nat, issue: Issue, now: int) returns (totals: map<Currency, int>)
    requires items != [] && AreTotals(items, subtotals) && cold == AnyColdItem(items)
    requires promo == CartPromo(store.State(), user) && prior == PriorOrders(store.State(), user)
    ensures forall c :: c in totals <==>
              && QuoteIn(store.State(), items, user, c, now).Some?
              && QuoteIn(store.State(), items, user, c, now).value.issue == issue
    ensures forall c | c in totals :: totals[c] == QuoteIn(store.State(), items, user, c, now).value.totals.total
  {
    totals := map[];
    var todo := subtotals.Keys;
    while todo != {}
      invariant forall c | c in todo :: c in subtotals && c !in totals
      invariant forall c | c !in todo :: c in totals <==>
                  && QuoteIn(store.State(), items, user, c, now).Some?
                  && QuoteIn(store.State(), items, user, c, now).value.issue == issue
      invariant forall c | c in totals :: totals[c] == QuoteIn(store.State(), items, user, c, now).value.totals.total
      decreases |todo|
    {
      var c :| c in todo;
      todo := todo - {c};
      var alt := QuoteMarket(store, items, subtotals, cold, promo, prior, user, c, now);
      if alt.Some? && alt.value.issue == issue {
        totals := totals[c := alt.value.totals.total];
      }
    }
  }

  method BuildPreview(store: Store.Store, rows: seq<CartRow>, user: nat, primary: Currency, now: int)
    returns (resp: Response)
    requires UniqueCart(CartOf(store.State(), user))
    requires rows == CartRows(store.State(), CartOf(store.State(), user))
    ensures IsPreview(store.State(), ItemsFor(store.State(), CartOf(store.State(), user)), user, primary, now, resp)
  {
    var items := GroupRows(rows);
    GroupingRoundTrip(store.State(), CartOf(store.State(), user));
    resp := Response(primary, None, false, None, map[]);
    if |items| == 0 {
      return;
    }
    var promo := store.ReadPromo(user);
    var prior := store.CountPrior(user);
    var subtotals := CartTotals(items);
    var cold := AnyChilled(items);
    var b := QuoteMarket(store, items, subtotals, cold, promo, prior, user, primary, now);
    if b.None? {
      return;
    }
    resp := resp.(quote := b, cold := cold);
    if b.value.remaining.Some? {
      resp := resp.(threshold := store.catalog.rates[primary].freeOver);
    }
    var totals := OtherTotals(store, items, subtotals, cold, promo, prior, user, b.value.issue, now);
    resp := resp.(totals := totals);
  }

  // ----- The preview and the order agree --------------------------------------------------

  ghost predicate Stocked(s: Shop, cart: seq<CartLine>) {
    forall i | 0 <= i < |cart| :: At(s.stock, cart[i].variant) >= cart[i].qty
  }

  lemma {:induction false} NoProblemIff(lines: seq<LineView>)
    ensures FirstProblem(lines).None? <==> forall i | 0 <= i < |lines| :: LineProblem(lines[i]).None?
    ensures FirstProblem(lines).Some? ==> exists i | 0 <= i < |lines| :: LineProblem(lines[i]) == FirstProblem(lines)
  {
    if lines != [] {
      var front := lines[..|lines| - 1];
      NoProblemIff(front);
      assert forall i | 0 <= i < |front| :: front[i] == lines[i];
      if FirstProblem(front).Some? {
        var k :| 0 <= k < |front| && LineProblem(front[k]) == FirstProblem(front);
        assert LineProblem(lines[k]) == FirstProblem(lines);
      }
    }
  }

  /** The locked lines are the cart's lines, whatever their order. */
  lemma LineFromCart(s: Shop, req: Request, k: nat) returns (i: nat)
    requires UniqueCart(CartOf(s, req.user)) && k < |Read(s, req).lines|
    ensures i < |CartOf(s, req.user)|
    ensures Read(s, req).lines[k] == ReadLine(s, CartOf(s, req.user)[i], req.currency)
  {
    var cart := CartOf(s, req.user);
    ByVariantAscends(cart);
    assert ByVariant(cart)[k] in cart;
    i :| 0 <= i < |cart| && cart[i] == ByVariant(cart)[k];
  }

  lemma LineOfCart(s: Shop, req: Request, i: nat) returns (k: nat)
    requires UniqueCart(CartOf(s, req.user)) && i < |CartOf(s, req.user)|
    ensures k < |Read(s, req).lines|
    ensures Read(s, req).lines[k] == ReadLine(s, CartOf(s, req.user)[i], req.currency)
  {
    var cart := CartOf(s, req.user);
    ByVariantAscends(cart);
    assert cart[i] in ByVariant(cart);
    k :| 0 <= k < |ByVariant(cart)| && ByVariant(cart)[k] == cart[i];
  }

  ghost predicate LinesPriced(lines: seq<LineView>) {
    forall k | 0 <= k < |lines| :: lines[k].price.Some?
  }

  ghost predicate LinesStocked(lines: seq<LineView>) {
    forall k | 0 <= k < |lines| :: lines[k].stock >= lines[k].qty
  }

  lemma SamePricing(s: Shop, req: Request)
    requires UniqueCart(CartOf(s, req.user))
    ensures LinesPriced(Read(s, req).lines) <==> AllPriced(s, CartOf(s, req.user), req.currency)
  {
    var cart, lines := CartOf(s, req.user), Read(s, req).lines;
    forall i | 0 <= i < |cart| && LinesPriced(lines)
      ensures PriceIn(s.catalog, cart[i].variant, req.currency).Some?
    {
      var k := LineOfCart(s, req, i);
    }
    forall k | 0 <= k < |lines| && AllPriced(s, cart, req.currency)
      ensures lines[k].price.Some?
    {
      var i := LineFromCart(s, req, k);
    }
  }

  lemma SameStocking(s: Shop, req: Request)
    requires UniqueCart(CartOf(s, req.user))
    ensures LinesStocked(Read(s, req).lines) <==> Stocked(s, CartOf(s, req.user))
  {
    var cart, lines := CartOf(s, req.user), Read(s, req).lines;
    forall i | 0 <= i < |cart| && LinesStocked(lines)
      ensures At(s.stock, cart[i].variant) >= cart[i].qty
    {
      var k := LineOfCart(s, req, i);
    }
    forall k | 0 <= k < |lines| && Stocked(s, cart)
      ensures lines[k].stock >= lines[k].qty
    {
      var i := LineFromCart(s, req, k);
    }
  }

  lemma SameCold(s: Shop, req: Request)
    requires UniqueCart(CartOf(s, req.user))
    requires forall i | 0 <= i < |CartOf(s, req.user)| :: Priced(s, CartOf(s, req.user)[i])
    ensures AnyCold(Read(s, req).lines) == AnyColdItem(ItemsFor(s, CartOf(s, req.user)))
  {
    var cart := CartOf(s, req.user);
    var lines, items := Read(s, req).lines, ItemsFor(s, cart);
    ItemsAreLines(s, cart);
    if k: nat :| k < |lines| && lines[k].cold {
      var i := LineFromCart(s, req, k);
      assert items[i].cold;
    }
    if i: nat :| i < |items| && items[i].cold {
      var k := LineOfCart(s, req, i);
      assert lines[k].cold;
    }
  }

  /** Checkout prices the very input the preview priced. */
  lemma SameInput(s: Shop, req: Request)
    requires UniqueCart(CartOf(s, req.user))
    requires forall i | 0 <= i < |CartOf(s, req.user)| :: Priced(s, CartOf(s, req.user)[i])
    requires QuoteIn(s, ItemsFor(s, CartOf(s, req.user)), req.user, req.currency, req.now).Some?
    ensures
      var v := Read(s, req);
      && v.rate.Some?
      && Quote(InputOf(v, v.rate.value, req))
         == QuoteIn(s, ItemsFor(s, CartOf(s, req.user)), req.user, req.currency, req.now).value
  {
    var cart := CartOf(s, req.user);
    SubtotalIsCartSum(s, ByVariant(cart), req.currency);
    SortingKeepsSum(s, cart, req.currency);
    ItemsTotals(s, cart, req.currency);
    SameCold(s, req);
  }

  predicate PricingRefusal(why: Refusal) {
    why.PriceUnavailable? || why.StockShort? || why.NoShippingRate?
  }

  /** What a checkout answers, from the facts a preview shows. */
  lemma DecisionFromFacts(v: View, req: Request)
    requires v.lines != []
    ensures !LinesPriced(v.lines) || v.rate.None? ==>
              Decide(v, req).Failure? && PricingRefusal(Decide(v, req).error)
    ensures LinesPriced(v.lines) && v.rate.Some? ==>
              var b := Quote(InputOf(v, v.rate.value, req));
              if !LinesStocked(v.lines) then Decide(v, req).Failure? && Decide(v, req).error.StockShort?
              else if b.issue != NoIssue then Decide(v, req) == Failure(PromoInvalid(b.issue))
              else Decide(v, req).Success? && Decide(v, req).value.totals == b.totals
  {
    NoProblemIff(v.lines);
  }

  /**
   * From one state and instant: a market the preview quotes with no promo
   * issue is charged exactly the quoted figures unless stock is short; with an
   * issue it is refused for that issue; a market it cannot quote is refused.
   */
  lemma PreviewAndOrderAgree(s: Shop, req: Request)
    requires Ledger.CartsSound(s) && CartOf(s, req.user) != []
    requires forall i | 0 <= i < |CartOf(s, req.user)| :: Priced(s, CartOf(s, req.user)[i])
    ensures
      var quote := QuoteIn(s, ItemsFor(s, CartOf(s, req.user)), req.user, req.currency, req.now);
      var verdict := Decide(Read(s, req), req);
      if quote.None? then verdict.Failure? && PricingRefusal(verdict.error)
      else if !Stocked(s, CartOf(s, req.user)) then verdict.Failure? && verdict.error.StockShort?
      else if quote.value.issue != NoIssue then verdict == Failure(PromoInvalid(quote.value.issue))
      else verdict.Success? && verdict.value.totals == quote.value.totals
  {
    var cart := CartOf(s, req.user);
    ItemsAreLines(s, cart);
    ByVariantAscends(cart);
    SamePricing(s, req);
    SameStocking(s, req);
    TotalsOfItems(s, cart, req.currency);
    DecisionFromFacts(Read(s, req), req);
    if QuoteIn(s, ItemsFor(s, cart), req.user, req.currency, req.now).Some? {
      SameInput(s, req);
    }
  }

  /** What is quoted without an issue, and is in stock, is what the new order row carries. */
  lemma QuotedIsCharged(s: Shop, req: Request)
    requires Ledger.CartsSound(s) && Stocked(s, CartOf(s, req.user))
    requires forall i | 0 <= i < |CartOf(s, req.user)| :: Priced(s, CartOf(s, req.user)[i])
    requires
      var quote := QuoteIn(s, ItemsFor(s, CartOf(s, req.user)), req.user, req.currency, req.now);
      quote.Some? && quote.value.issue == NoIssue
    ensures
      var quote := QuoteIn(s, ItemsFor(s, CartOf(s, req.user)), req.user, req.currency, req.now);
      var placed := CreateOrder(s, req);
      && placed.reply == Placed(|s.orders|)
      && |placed.shop.orders| == |s.orders| + 1
      && placed.shop.orders[|s.orders|].totals == quote.value.totals
      && placed.shop.orders[|s.orders|].currency == req.currency
  {
    ItemsAreLines(s, CartOf(s, req.user));
    PreviewAndOrderAgree(s, req);
    History.DecisionKind(Read(s, req), req);
    ChargedOrder(s, req);
  }

  lemma ChargedOrder(s: Shop, req: Request)
    requires Decide(Read(s, req), req).Success?
    requires CartPromo(s, req.user).Some? ==> !CartPromo(s, req.user).value.usedByShopper
    ensures CreateOrder(s, req) ==
            Outcome(Publish(s, req.user, Decide(Read(s, req), req).value), Placed(|s.orders|))
    ensures Decide(Read(s, req), req).value.currency == req.currency
  {
  }

  function Without(cart: seq<CartLine>, k: nat): seq<CartLine>
    requires k < |cart|
  {
    cart[..k] + cart[k + 1..]
  }

  /** A line no market has a price for never reaches the preview, wherever it stands. */
  lemma {:induction false} UnpricedVanishes(s: Shop, cart: seq<CartLine>, k: nat)
    requires k < |cart| && !Priced(s, cart[k])
    ensures ItemsFor(s, cart) == ItemsFor(s, Without(cart, k))
  {
    var n := |cart| - 1;
    if k == n {
      assert Without(cart, k) == cart[..n];
    } else {
      UnpricedVanishes(s, cart[..n], k);
      assert Without(cart, k)[..n - 1] == Without(cart[..n], k);
      assert Without(cart, k)[n - 1] == cart[n];
    }
  }

  lemma UnpricedRefused(s: Shop, req: Request, k: nat)
    requires UniqueCart(CartOf(s, req.user)) && k < |CartOf(s, req.user)| && !Priced(s, CartOf(s, req.user)[k])
    ensures Decide(Read(s, req), req).Failure? && PricingRefusal(Decide(Read(s, req), req).error)
  {
    var n := LineOfCart(s, req, k);
    assert req.currency == USD || req.currency == AMD;
    assert Read(s, req).lines[n].price.None?;
    DecisionFromFacts(Read(s, req), req);
  }

  /** One cart, both ways: the preview quotes it as if the unpriced line were not there, and checkout refuses it. */
  lemma UnpricedLine(s: Shop, req: Request, k: nat)
    requires UniqueCart(CartOf(s, req.user)) && k < |CartOf(s, req.user)| && !Priced(s, CartOf(s, req.user)[k])
    ensures
      var cart := CartOf(s, req.user);
      QuoteIn(s, ItemsFor(s, cart), req.user, req.currency, req.now)
      == QuoteIn(s, ItemsFor(s, Without(cart, k)), req.user, req.currency, req.now)
    ensures Decide(Read(s, req), req).Failure? && PricingRefusal(Decide(Read(s, req), req).error)
  {
    UnpricedVanishes(s, CartOf(s, req.user), k);
    UnpricedRefused(s, req, k);
  }

  ghost predicate EveryLinePriced(s: Shop, cart: seq<CartLine>) {
    forall i | 0 <= i < |cart| :: Priced(s, cart[i])
  }

  /** Of what is quoted without an issue, exactly the carts in stock with every line priced are placed as quoted. */
  lemma QuotedIsPlacedIff(s: Shop, req: Request)
    requires Ledger.CartsSound(s)
    requires
      var quote := QuoteIn(s, ItemsFor(s, CartOf(s, req.user)), req.user, req.currency, req.now);
      quote.Some? && quote.value.issue == NoIssue
    ensures
      var quote := QuoteIn(s, ItemsFor(s, CartOf(s, req.user)), req.user, req.currency, req.now);
      var placed := CreateOrder(s, req);
      && (placed.reply.Placed? <==> Stocked(s, CartOf(s, req.user)) && EveryLinePriced(s, CartOf(s, req.user)))
      && (placed.reply.Placed? ==>
            |placed.shop.orders| == |s.orders| + 1 && placed.shop.orders[|s.orders|].totals == quote.value.totals)
  {
    var cart := CartOf(s, req.user);
    if EveryLinePriced(s, cart) {
      if Stocked(s, cart) {
        QuotedIsCharged(s, req);
      } else {
        ShortIsRefused(s, req);
      }
    } else {
      var k :| 0 <= k < |cart| && !Priced(s, cart[k]);
      UnpricedRefused(s, req, k);
      RefusedIsNotPlaced(s, req);
    }
  }

  lemma RefusedIsNotPlaced(s: Shop, req: Request)
    requires Decide(Read(s, req), req).Failure?
    ensures !CreateOrder(s, req).reply.Placed?
  {
  }

  lemma ShortIsRefused(s: Shop, req: Request)
    requires Ledger.CartsSound(s) && EveryLinePriced(s, CartOf(s, req.user)) && !Stocked(s, CartOf(s, req.user))
    ensures !CreateOrder(s, req).reply.Placed?
  {
    PreviewAndOrderAgree(s, req);
    RefusedIsNotPlaced(s, req);
  }
}
