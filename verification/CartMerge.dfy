/** What reordering an old order does to a cart (backend/internal/store/orders.go). */
module CartMerge {
  import opened Wrappers
  import opened Transactions
  import opened Sorting
  import Ledger

  /** What a report says one variant gained. */
  function GainOf(lines: seq<MergeLine>, v: nat): int {
    if lines == [] then 0
    else
      var last := lines[|lines| - 1];
      GainOf(lines[..|lines| - 1], v) + if last.variant == v then last.qty else 0
  }

  /** The cart grows by exactly what the report says. */
  lemma {:induction false} AddLinesGain(cart: seq<CartLine>, lines: seq<MergeLine>, v: nat)
    requires forall i | 0 <= i < |lines| && lines[i].issue in {Unavailable, OutOfStock} :: lines[i].qty == 0
    ensures QtyInCart(AddLines(cart, lines), v) == QtyInCart(cart, v) + GainOf(lines, v)
  {
    if lines != [] {
      var front, last := lines[..|lines| - 1], lines[|lines| - 1];
      AddLinesGain(cart, front, v);
      if last.issue !in {Unavailable, OutOfStock} {
        var before := AddLines(cart, front);
        SetLineQty(before, last.variant, QtyInCart(before, last.variant) + last.qty, v);
      }
    }
  }

  lemma {:induction false} GainAbsent(lines: seq<MergeLine>, v: nat)
    requires forall i | 0 <= i < |lines| :: lines[i].variant != v
    ensures GainOf(lines, v) == 0
  {
    if lines != [] {
      GainAbsent(lines[..|lines| - 1], v);
    }
  }

  lemma {:induction false} GainPresent(lines: seq<MergeLine>, k: nat)
    requires k < |lines|
    requires forall i, j | 0 <= i < j < |lines| :: lines[i].variant != lines[j].variant
    ensures GainOf(lines, lines[k].variant) == lines[k].qty
  {
    var front := lines[..|lines| - 1];
    if k == |lines| - 1 {
      GainAbsent(front, lines[k].variant);
    } else {
      GainPresent(front, k);
    }
  }

  function Cap(s: Shop, v: nat): int {
    Min(At(s.stock, v), 99)
  }

  function Room(s: Shop, user: nat, v: nat): int {
    Cap(s, v) - QtyInCart(CartOf(s, user), v)
  }

  predicate Sellable(s: Shop, v: nat) {
    exists product | product in s.catalog.active :: Ledger.IsOf(s.catalog, v, product)
  }

  /** What a reorder should add of one item: what was ordered, as far as there is room. */
  function ShouldAdd(s: Shop, user: nat, item: Item): int {
    if Sellable(s, item.variant) && Room(s, user, item.variant) > 0
    then Min(item.qty, Room(s, user, item.variant)) else 0
  }

  /** The reported line is the truth about the item: how much, and why not more. */
  lemma ReportIsTrue(s: Shop, user: nat, item: Item)
    requires item.qty > 0
    ensures
      var line := MergeLineOf(s, user, item);
      && line.qty == ShouldAdd(s, user, item)
      && (line.issue == Unavailable <==> !Sellable(s, item.variant))
      && (line.issue == OutOfStock <==> Sellable(s, item.variant) && line.qty == 0)
      && (line.issue == Reduced <==> 0 < line.qty < item.qty)
      && (line.issue == AddedInFull <==> line.qty == item.qty)
  {
  }

  /** What the books guarantee of the order: one item a variant, each of something. */
  ghost predicate Reorderable(s: Shop, user: nat, id: nat) {
    && id < |s.orders|
    && s.orders[id].user == Some(user)
    && Ledger.ItemsSound(s.orders[id].items, s.stock)
  }

  lemma BooksMakeReorderable(s: Shop, user: nat, id: nat)
    requires Ledger.BooksSound(s) && id < |s.orders| && s.orders[id].user == Some(user)
    ensures Reorderable(s, user, id)
  {
  }

  /** A reorder adds to each of the order's variants exactly what is ordered as far as there is room. */
  lemma ReorderFills(s: Shop, user: nat, id: nat, k: nat)
    requires Reorderable(s, user, id) && k < |s.orders[id].items|
    ensures
      var item := s.orders[id].items[k];
      QtyInCart(CartOf(Reorder(s, user, id).shop, user), item.variant)
      == QtyInCart(CartOf(s, user), item.variant) + ShouldAdd(s, user, item)
  {
    var items := s.orders[id].items;
    var lines := MergeLines(s, user, items);
    ReportIsTrue(s, user, items[k]);
    AddLinesGain(CartOf(s, user), lines, items[k].variant);
    GainPresent(lines, k);
  }

  lemma UnorderedUntouched(s: Shop, user: nat, id: nat, v: nat)
    requires Reorderable(s, user, id)
    requires forall i | 0 <= i < |s.orders[id].items| :: s.orders[id].items[i].variant != v
    ensures QtyInCart(CartOf(Reorder(s, user, id).shop, user), v) == QtyInCart(CartOf(s, user), v)
  {
    var lines := MergeLines(s, user, s.orders[id].items);
    AddLinesGain(CartOf(s, user), lines, v);
    GainAbsent(lines, v);
  }

  lemma ReorderedCart(s: Shop, user: nat, id: nat)
    requires Reorderable(s, user, id)
    ensures
      var s' := Reorder(s, user, id).shop;
      s' == s.(carts := s.carts[user := CartOf(s', user)])
  {
  }

  /** What a variant's line is after a reorder: as it was, or grown within the cap. */
  ghost predicate GrewWithin(before: int, after: int, cap: int) {
    after == before || before < after <= cap
  }

  lemma FillsWithin(s: Shop, user: nat, id: nat, k: nat)
    requires Reorderable(s, user, id) && k < |s.orders[id].items|
    ensures
      var v := s.orders[id].items[k].variant;
      GrewWithin(QtyInCart(CartOf(s, user), v), QtyInCart(CartOf(Reorder(s, user, id).shop, user), v), Cap(s, v))
  {
    ReorderFills(s, user, id, k);
  }

  /** It touches no other line, changes nothing but this cart, and overfills no line. */
  lemma ReorderTouchesOnlyItsLines(s: Shop, user: nat, id: nat, v: nat)
    requires Reorderable(s, user, id)
    ensures
      var s' := Reorder(s, user, id).shop;
      && s' == s.(carts := s.carts[user := CartOf(s', user)])
      && GrewWithin(QtyInCart(CartOf(s, user), v), QtyInCart(CartOf(s', user), v), Cap(s, v))
      && ((forall i | 0 <= i < |s.orders[id].items| :: s.orders[id].items[i].variant != v) ==>
            QtyInCart(CartOf(s', user), v) == QtyInCart(CartOf(s, user), v))
  {
    ReorderedCart(s, user, id);
    if k: nat :| k < |s.orders[id].items| && s.orders[id].items[k].variant == v {
      FillsWithin(s, user, id, k);
    } else {
      UnorderedUntouched(s, user, id, v);
    }
  }

  function Repeat(s: Shop, user: nat, id: nat, times: nat): Shop {
    if times == 0 then s else Reorder(Repeat(s, user, id, times - 1), user, id).shop
  }

  lemma {:induction false} RepeatTouchesOnlyTheCart(s: Shop, user: nat, id: nat, times: nat)
    ensures Repeat(s, user, id, times) == s.(carts := Repeat(s, user, id, times).carts)
  {
    if times > 0 {
      RepeatTouchesOnlyTheCart(s, user, id, times - 1);
      Ledger.ReorderShape(Repeat(s, user, id, times - 1), user, id);
    }
  }

  /** One refill, as far as there is room. */
  function Topped(had: int, ordered: int, cap: int): int {
    had + if cap - had > 0 then Min(ordered, cap - had) else 0
  }

  /** The line after a number of refills, each as far as there is room. */
  function Refilled(inCart: int, ordered: int, cap: int, times: nat): int {
    if times == 0 then inCart
    else Topped(Refilled(inCart, ordered, cap, times - 1), ordered, cap)
  }

  lemma {:induction false} RefilledInSteps(inCart: int, ordered: int, cap: int, times: nat)
    requires ordered > 0 && inCart <= cap
    ensures Refilled(inCart, ordered, cap, times) == Min(inCart + times * ordered, cap)
  {
    if times > 0 {
      RefilledInSteps(inCart, ordered, cap, times - 1);
      assert times * ordered == (times - 1) * ordered + ordered;
    }
  }

  /** What the cart holds of a variant after a number of reorders. */
  function Held(s: Shop, user: nat, id: nat, variant: nat, times: nat): int {
    QtyInCart(CartOf(Repeat(s, user, id, times), user), variant)
  }

  lemma OnceMore(s: Shop, user: nat, id: nat, k: nat, times: nat)
    requires Reorderable(s, user, id)
    requires k < |s.orders[id].items| && Sellable(s, s.orders[id].items[k].variant)
    ensures
      var item := s.orders[id].items[k];
      Held(s, user, id, item.variant, times + 1)
      == Topped(Held(s, user, id, item.variant, times), item.qty, Cap(s, item.variant))
  {
    RepeatTouchesOnlyTheCart(s, user, id, times);
    ReorderFills(Repeat(s, user, id, times), user, id, k);
  }

  lemma {:induction false} ToppedUp(held: seq<int>, ordered: int, cap: int)
    requires held != []
    requires forall t, u | 0 <= t < u < |held| && u == t + 1 :: held[u] == Topped(held[t], ordered, cap)
    ensures held[|held| - 1] == Refilled(held[0], ordered, cap, |held| - 1)
  {
    if |held| > 1 {
      ToppedUp(held[..|held| - 1], ordered, cap);
    }
  }

  lemma RepeatIsRefill(s: Shop, user: nat, id: nat, k: nat, times: nat)
    requires Reorderable(s, user, id)
    requires k < |s.orders[id].items| && Sellable(s, s.orders[id].items[k].variant)
    ensures
      var item := s.orders[id].items[k];
      Held(s, user, id, item.variant, times)
      == Refilled(Held(s, user, id, item.variant, 0), item.qty, Cap(s, item.variant), times)
  {
    var item := s.orders[id].items[k];
    var held := seq(times + 1, t requires 0 <= t => Held(s, user, id, item.variant, t));
    forall t, u | 0 <= t < u < |held| && u == t + 1
      ensures held[u] == Topped(held[t], item.qty, Cap(s, item.variant))
    {
      OnceMore(s, user, id, k, t);
    }
    ToppedUp(held, item.qty, Cap(s, item.variant));
  }

  /** Reordering again and again fills the line in steps of the ordered quantity, up to the cap. */
  lemma RepeatedReorder(s: Shop, user: nat, id: nat, k: nat, times: nat)
    requires Reorderable(s, user, id)
    requires k < |s.orders[id].items| && Sellable(s, s.orders[id].items[k].variant)
    requires QtyInCart(CartOf(s, user), s.orders[id].items[k].variant) <= Cap(s, s.orders[id].items[k].variant)
    ensures
      var item := s.orders[id].items[k];
      QtyInCart(CartOf(Repeat(s, user, id, times), user), item.variant)
      == Min(QtyInCart(CartOf(s, user), item.variant) + times * item.qty, Cap(s, item.variant))
  {
    var item := s.orders[id].items[k];
    RepeatIsRefill(s, user, id, k, times);
    RefilledInSteps(QtyInCart(CartOf(s, user), item.variant), item.qty, Cap(s, item.variant), times);
  }
}
