/** Facts about the two ascending orders a checkout locks rows in. */
module Sorting {
  import opened Transactions

  /** The primary key (user, variant): one line per variant. */
  ghost predicate UniqueCart(cart: seq<CartLine>) {
    forall i, j | 0 <= i < j < |cart| :: cart[i].variant != cart[j].variant
  }

  ghost predicate Ascending(cart: seq<CartLine>) {
    forall i, j | 0 <= i < j < |cart| :: cart[i].variant < cart[j].variant
  }

  ghost predicate AscendingIds(ids: seq<nat>) {
    forall i, j | 0 <= i < j < |ids| :: ids[i] < ids[j]
  }

  ghost predicate UniqueItems(items: seq<Item>) {
    forall i, j | 0 <= i < j < |items| :: items[i].variant != items[j].variant
  }

  lemma {:induction false} InsertAscends(line: CartLine, sorted: seq<CartLine>)
    requires Ascending(sorted)
    requires forall i | 0 <= i < |sorted| :: sorted[i].variant != line.variant
    ensures Ascending(InsertByVariant(line, sorted))
    ensures forall x :: x in InsertByVariant(line, sorted) <==> x == line || x in sorted
  {
    if sorted == [] || line.variant <= sorted[0].variant {
    } else {
      InsertAscends(line, sorted[1..]);
      var rest := InsertByVariant(line, sorted[1..]);
      assert sorted == [sorted[0]] + sorted[1..];
      forall i | 0 <= i < |rest|
        ensures sorted[0].variant < rest[i].variant
      {
        assert rest[i] in rest;
      }
    }
  }

  /** Sorting a keyed cart keeps its lines and leaves the variants strictly ascending. */
  lemma {:induction false} ByVariantAscends(cart: seq<CartLine>)
    requires UniqueCart(cart)
    ensures Ascending(ByVariant(cart))
    ensures forall x :: x in ByVariant(cart) <==> x in cart
    ensures |ByVariant(cart)| == 0 <==> |cart| == 0
  {
    if cart != [] {
      ByVariantAscends(cart[1..]);
      assert cart == [cart[0]] + cart[1..];
      var rest := ByVariant(cart[1..]);
      forall i | 0 <= i < |rest|
        ensures rest[i].variant != cart[0].variant
      {
        assert rest[i] in rest;
      }
      InsertAscends(cart[0], rest);
      assert cart[0] in ByVariant(cart);
    }
  }

  // ----- Editing a cart keeps its key -------------------------------------------

  lemma {:induction false} SetLineUnique(cart: seq<CartLine>, variant: nat, qty: int)
    requires UniqueCart(cart)
    ensures UniqueCart(SetLine(cart, variant, qty))
    ensures forall x | x in SetLine(cart, variant, qty) :: x == CartLine(variant, qty) || x in cart
  {
    if cart != [] && cart[0].variant != variant {
      SetLineUnique(cart[1..], variant, qty);
      var rest := SetLine(cart[1..], variant, qty);
      forall i | 0 <= i < |rest|
        ensures rest[i].variant != cart[0].variant
      {
        assert rest[i] in rest;
      }
    }
  }

  lemma {:induction false} DropLineUnique(cart: seq<CartLine>, variant: nat)
    requires UniqueCart(cart)
    ensures UniqueCart(DropLine(cart, variant))
    ensures forall x | x in DropLine(cart, variant) :: x in cart && x.variant != variant
  {
    if cart != [] && cart[0].variant != variant {
      DropLineUnique(cart[1..], variant);
      var rest := DropLine(cart[1..], variant);
      forall i | 0 <= i < |rest|
        ensures rest[i].variant != cart[0].variant
      {
        assert rest[i] in rest;
      }
    }
  }

  lemma {:induction false} SetLineQty(cart: seq<CartLine>, v: nat, qty: int, w: nat)
    ensures QtyInCart(SetLine(cart, v, qty), w) == if w == v then qty else QtyInCart(cart, w)
  {
    if cart != [] && cart[0].variant != v {
      SetLineQty(cart[1..], v, qty, w);
    }
  }

  lemma {:induction false} DropLineQty(cart: seq<CartLine>, v: nat, w: nat)
    requires UniqueCart(cart)
    ensures QtyInCart(DropLine(cart, v), w) == if w == v then 0 else QtyInCart(cart, w)
  {
    if cart != [] {
      if cart[0].variant != v {
        DropLineQty(cart[1..], v, w);
      } else if w == v {
        AbsentQty(cart[1..], v);
      }
    }
  }

  lemma {:induction false} AbsentQty(cart: seq<CartLine>, v: nat)
    requires forall i | 0 <= i < |cart| :: cart[i].variant != v
    ensures QtyInCart(cart, v) == 0
  {
    if cart != [] {
      AbsentQty(cart[1..], v);
    }
  }

  lemma {:induction false} PresentQty(cart: seq<CartLine>, i: nat)
    requires UniqueCart(cart) && i < |cart|
    ensures QtyInCart(cart, cart[i].variant) == cart[i].qty
  {
    if i > 0 {
      PresentQty(cart[1..], i - 1);
    }
  }

  // ----- The products of an order ---------------------------------------------

  function InsertId(id: nat, ids: seq<nat>): seq<nat> {
    if ids == [] || id < ids[0] then [id] + ids
    else if id == ids[0] then ids
    else [ids[0]] + InsertId(id, ids[1..])
  }

  /** Every product an order sells, once, in ascending id order. */
  function ProductsOf(productOf: map<nat, nat>, items: seq<Item>): seq<nat> {
    if items == [] then []
    else InsertId(ProductOf(productOf, items[|items| - 1].variant), ProductsOf(productOf, items[..|items| - 1]))
  }

  lemma {:induction false} InsertIdAscends(id: nat, ids: seq<nat>)
    requires AscendingIds(ids)
    ensures AscendingIds(InsertId(id, ids))
    ensures forall x :: x in InsertId(id, ids) <==> x == id || x in ids
  {
    if ids == [] || id <= ids[0] {
    } else {
      InsertIdAscends(id, ids[1..]);
      var rest := InsertId(id, ids[1..]);
      assert ids == [ids[0]] + ids[1..];
      forall i | 0 <= i < |rest|
        ensures ids[0] < rest[i]
      {
        assert rest[i] in rest;
      }
    }
  }

  lemma {:induction false} ProductsOfAscends(productOf: map<nat, nat>, items: seq<Item>)
    ensures AscendingIds(ProductsOf(productOf, items))
    ensures forall p | p !in ProductsOf(productOf, items) :: SoldOf(items, productOf, p) == 0
  {
    if items != [] {
      var front := items[..|items| - 1];
      ProductsOfAscends(productOf, front);
      InsertIdAscends(ProductOf(productOf, items[|items| - 1].variant), ProductsOf(productOf, front));
    }
  }

  // ----- Quantities when each variant has one item ------------------------------

  lemma {:induction false} QtyOfAbsent(items: seq<Item>, v: nat)
    requires forall i | 0 <= i < |items| :: items[i].variant != v
    ensures QtyOf(items, v) == 0 && RestoredQty(items, v) == 0
  {
    if items != [] {
      QtyOfAbsent(items[..|items| - 1], v);
    }
  }

  lemma {:induction false} QtyOfPresent(items: seq<Item>, k: nat)
    requires k < |items| && UniqueItems(items)
    ensures QtyOf(items, items[k].variant) == items[k].qty
    ensures RestoredQty(items, items[k].variant) == items[k].qty
  {
    var front := items[..|items| - 1];
    if k == |items| - 1 {
      QtyOfAbsent(front, items[k].variant);
    } else {
      QtyOfPresent(front, k);
      assert front[k] == items[k];
    }
  }

  /** With one item per variant, the joined UPDATE restores exactly what was taken. */
  lemma RestoreIsExact(items: seq<Item>, v: nat)
    requires UniqueItems(items)
    ensures RestoredQty(items, v) == QtyOf(items, v)
  {
    if k: nat :| k < |items| && items[k].variant == v {
      QtyOfPresent(items, k);
    } else {
      QtyOfAbsent(items, v);
    }
  }

  /** With two items of one variant it does not: the second row's quantity is lost. */
  lemma RestoreNeedsUniqueItems()
    ensures
      var items := [Item(7, 100, 1), Item(7, 100, 2)];
      RestoredQty(items, 7) == 2 && QtyOf(items, 7) == 3
  {
    var items := [Item(7, 100, 1), Item(7, 100, 2)];
    assert items[..1] == [Item(7, 100, 1)];
    assert items[..1][..0] == [];
    assert QtyOf(items[..1], 7) == 1;
  }
}
