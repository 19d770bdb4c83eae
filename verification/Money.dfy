/**
 * Amounts in every market at once, and the basket totals built from them
 * (backend/internal/domain/currency.go, backend/internal/domain/cart.go).
 */
module Money {

  datatype Currency = USD | AMD

  /** Every market the shop prices in. */
  const CURRENCIES: set<Currency> := {USD, AMD}

  /** Currency -> integer minor units; a market the amount is unknown in is absent. */
  type Money = map<Currency, int>

  datatype CartItem = CartItem(variant: nat, qty: int, cold: bool, prices: Money)

  ghost predicate PricedIn(items: seq<CartItem>, c: Currency) {
    forall i | 0 <= i < |items| :: c in items[i].prices
  }

  /** Price times quantity, summed over the lines; an unpriced line adds nothing. */
  function SumIn(items: seq<CartItem>, c: Currency): int {
    if items == [] then 0
    else
      var last := items[|items| - 1];
      SumIn(items[..|items| - 1], c) + if c in last.prices then last.prices[c] * last.qty else 0
  }

  /** A line total from a unit price: every market's figure times n. */
  method Scaled(m: Money, n: int) returns (out: Money)
    ensures out.Keys == m.Keys
    ensures forall c | c in m :: out[c] == m[c] * n
  {
    out := map[];
    var todo := m.Keys;
    while todo != {}
      invariant todo <= m.Keys
      invariant out.Keys == m.Keys - todo
      invariant forall c | c in out :: out[c] == m[c] * n
      decreases |todo|
    {
      var c :| c in todo;
      out := out[c := m[c] * n];
      todo := todo - {c};
    }
  }

  /** Accumulates m into dst market by market; nothing is ever converted. */
  method AddTo(m: Money, dst: Money) returns (sum: Money)
    ensures forall c :: c in sum <==> c in m || c in dst
    ensures forall c | c in sum ::
              sum[c] == (if c in dst then dst[c] else 0) + if c in m then m[c] else 0
  {
    sum := dst;
    var todo := m.Keys;
    while todo != {}
      invariant forall c | c in todo :: c in m && (c in sum <==> c in dst) && (c in dst ==> sum[c] == dst[c])
      invariant forall c | c !in todo :: c in sum <==> c in m || c in dst
      invariant forall c | c !in todo && c in sum ::
                  sum[c] == (if c in dst then dst[c] else 0) + if c in m then m[c] else 0
      decreases |todo|
    {
      var c :| c in todo;
      sum := sum[c := (if c in sum then sum[c] else 0) + m[c]];
      todo := todo - {c};
    }
  }

  /** Intersects the running totals with one more line, deleting the markets the line is not priced in. */
  method Intersect(totals: Money, line: Money) returns (out: Money)
    ensures forall c :: c in out <==> c in totals && c in line
    ensures forall c | c in out :: out[c] == totals[c] + line[c]
  {
    out := totals;
    var todo := totals.Keys;
    while todo != {}
      invariant forall c | c in todo :: c in totals && c in out && out[c] == totals[c]
      invariant forall c | c !in todo :: c in out <==> c in totals && c in line
      invariant forall c | c !in todo && c in out :: out[c] == totals[c] + line[c]
      decreases |todo|
    {
      var c :| c in todo;
      if c in line {
        out := out[c := out[c] + line[c]];
      } else {
        out := out - {c};
      }
      todo := todo - {c};
    }
  }

  /**
   * What the totals of a basket are: a market is present exactly when EVERY
   * line is priced in it, and its figure is then the sum of price times
   * quantity over all the lines.
   */
  ghost predicate AreTotals(items: seq<CartItem>, totals: Money) {
    && (forall c :: c in totals <==> PricedIn(items, c))
    && (forall c | c in totals :: totals[c] == SumIn(items, c))
  }

  /** One more line: the markets it is priced in survive, each with the line's total added. */
  lemma TotalsStep(items: seq<CartItem>, i: nat, totals: Money, out: Money)
    requires i < |items| && AreTotals(items[..i], totals)
    requires forall c :: c in out <==> c in totals && c in items[i].prices
    requires forall c | c in out :: out[c] == totals[c] + items[i].prices[c] * items[i].qty
    ensures AreTotals(items[..i + 1], out)
  {
    var front, more := items[..i], items[..i + 1];
    assert more[..i] == front && more[i] == items[i];
    forall c
      ensures c in out <==> PricedIn(more, c)
      ensures c in out ==> out[c] == SumIn(more, c)
    {
      assert PricedIn(more, c) <==> PricedIn(front, c) && c in more[i].prices;
    }
  }

  /** The basket summed independently in each market, by intersection line after line. */
  method CartTotals(items: seq<CartItem>) returns (totals: Money)
    ensures AreTotals(items, totals)
  {
    totals := map c | c in CURRENCIES :: 0;
    assert AreTotals([], totals) by {
      forall c: Currency
        ensures c in totals
      {
        assert c == USD || c == AMD;
      }
    }
    if |items| == 0 {
      return;
    }
    var first := Scaled(items[0].prices, items[0].qty);
    ghost var none := totals;
    totals := AddTo(first, map[]);
    assert items[..0] == [];
    TotalsStep(items, 0, none, totals);
    for i := 1 to |items|
      invariant AreTotals(items[..i], totals)
    {
      var line := Scaled(items[i].prices, items[i].qty);
      ghost var before := totals;
      totals := Intersect(totals, line);
      TotalsStep(items, i, before, totals);
    }
    assert items[..|items|] == items;
  }
}
