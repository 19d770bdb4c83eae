/**
 * Adding every saved product to the cart, and moving a cart line to the
 * wishlist (backend/internal/store/wishlist.go).
 */
module Wishlist {
  import opened Wrappers
  import opened Transactions
  import Sorting

  /** One variant of a saved product, as the joined read returns it. */
  datatype Row = Row(product: nat, variant: nat, stock: int, inCart: int)

  /** A product's fate: the variant one unit was added of, or none with room. */
  datatype WishLine = WishLine(product: nat, added: Option<nat>)

  predicate HasRoom(r: Row) {
    r.stock - r.inCart > 0 && r.inCart < MAX_CART_LINE
  }

  // ----- What the report and the cart should be -------------------------------------

  /** The saved products, each once, in the order they are first met. */
  function FirstSeen(rows: seq<Row>): seq<nat> {
    if rows == [] then []
    else
      var front, p := FirstSeen(rows[..|rows| - 1]), rows[|rows| - 1].product;
      if p in front then front else front + [p]
  }

  predicate Fits(r: Row, product: nat) {
    r.product == product && HasRoom(r)
  }

  /** Row k is the product's first with room. */
  ghost predicate IsFirstFit(rows: seq<Row>, product: nat, k: nat) {
    && k < |rows| && Fits(rows[k], product)
    && forall j | 0 <= j < k :: !Fits(rows[j], product)
  }

  function FirstFit(rows: seq<Row>, product: nat): (k: Option<nat>)
    ensures k.Some? ==> IsFirstFit(rows, product, k.value)
    ensures k.None? ==> forall j | 0 <= j < |rows| :: !Fits(rows[j], product)
  {
    if rows == [] then None
    else
      var earlier := FirstFit(rows[..|rows| - 1], product);
      if earlier.Some? then earlier
      else if Fits(rows[|rows| - 1], product) then Some(|rows| - 1)
      else None
  }

  function ChosenVariant(rows: seq<Row>, product: nat): Option<nat> {
    var k := FirstFit(rows, product);
    if k.Some? then Some(rows[k.value].variant) else None
  }

  function Report(rows: seq<Row>, products: seq<nat>): seq<WishLine> {
    if products == [] then []
    else
      var p := products[|products| - 1];
      Report(rows, products[..|products| - 1]) + [WishLine(p, ChosenVariant(rows, p))]
  }

  function AddOne(cart: seq<CartLine>, added: Option<nat>): seq<CartLine> {
    if added.None? then cart else SetLine(cart, added.value, QtyInCart(cart, added.value) + 1)
  }

  function AddReported(cart: seq<CartLine>, lines: seq<WishLine>): seq<CartLine> {
    if lines == [] then cart
    else AddOne(AddReported(cart, lines[..|lines| - 1]), lines[|lines| - 1].added)
  }

  lemma FirstFitIsChosen(rows: seq<Row>, product: nat, k: nat)
    requires IsFirstFit(rows, product, k)
    ensures ChosenVariant(rows, product) == Some(rows[k].variant)
  {
    var found := FirstFit(rows, product);
    assert Fits(rows[k], product);
    assert found.Some?;
    assert found.value == k;
  }

  lemma ReportSnoc(rows: seq<Row>, products: seq<nat>, p: nat)
    ensures Report(rows, products + [p]) == Report(rows, products) + [WishLine(p, ChosenVariant(rows, p))]
  {
    assert (products + [p])[..|products|] == products;
  }

  lemma AddReportedSnoc(cart: seq<CartLine>, lines: seq<WishLine>, line: WishLine)
    ensures AddReported(cart, lines + [line]) == AddOne(AddReported(cart, lines), line.added)
  {
    assert (lines + [line])[..|lines|] == lines;
  }

  lemma FirstSeenSnoc(rows: seq<Row>, i: nat)
    requires i < |rows|
    ensures
      var front, p := FirstSeen(rows[..i]), rows[i].product;
      FirstSeen(rows[..i + 1]) == if p in front then front else front + [p]
  {
    assert rows[..i + 1][..i] == rows[..i];
  }

  /** The inner scan: the first row, from the top, of this product with room. */
  method Search(rows: seq<Row>, p: nat) returns (chosen: Option<nat>)
    ensures chosen == ChosenVariant(rows, p)
  {
    for k := 0 to |rows|
      invariant forall j | 0 <= j < k :: !Fits(rows[j], p)
    {
      if rows[k].product == p && rows[k].stock - rows[k].inCart > 0 && rows[k].inCart < MAX_CART_LINE {
        FirstFitIsChosen(rows, p, k);
        return Some(rows[k].variant);
      }
    }
    chosen := None;
  }

  class Account {
    var cart: seq<CartLine>
    var hearts: set<nat>

    /** The nested search: every product once, its first variant with room, one unit each. */
    method AddWishlistToCart(rows: seq<Row>) returns (lines: seq<WishLine>)
      modifies this`cart
      ensures lines == Report(rows, FirstSeen(rows))
      ensures cart == AddReported(old(cart), lines)
    {
      lines := [];
      var seen: set<nat> := {};
      for i := 0 to |rows|
        invariant forall p :: p in seen <==> p in FirstSeen(rows[..i])
        invariant lines == Report(rows, FirstSeen(rows[..i]))
        invariant cart == AddReported(old(cart), lines)
      {
        var p := rows[i].product;
        FirstSeenSnoc(rows, i);
        if p !in seen {
          var chosen := Search(rows, p);
          seen := seen + {p};
          ReportSnoc(rows, FirstSeen(rows[..i]), p);
          AddReportedSnoc(old(cart), lines, WishLine(p, chosen));
          lines := lines + [WishLine(p, chosen)];
          if chosen.Some? {
            cart := SetLine(cart, chosen.value, QtyInCart(cart, chosen.value) + 1);
          }
        }
      }
      assert rows[..|rows|] == rows;
    }

    /** Moves a line: out of the cart and into the wishlist, or nothing at all. */
    method SaveForLater(variant: nat, productOf: map<nat, nat>) returns (reply: Reply)
      modifies this
      ensures reply == if QtyInCart(old(cart), variant) > 0 then Done else Refused(NotFound)
      ensures reply == Done ==>
                cart == DropLine(old(cart), variant) && hearts == old(hearts) + {ProductOf(productOf, variant)}
      ensures reply != Done ==> cart == old(cart) && hearts == old(hearts)
    {
      if QtyInCart(cart, variant) <= 0 {
        return Refused(NotFound);
      }
      cart := DropLine(cart, variant);
      hearts := hearts + {ProductOf(productOf, variant)};
      reply := Done;
    }
  }

  // ----- What that comes to ------------------------------------------------------------

  lemma {:induction false} FirstSeenIsInOrder(rows: seq<Row>)
    ensures forall p :: p in FirstSeen(rows) <==> exists k | 0 <= k < |rows| :: rows[k].product == p
    ensures forall i, j | 0 <= i < j < |FirstSeen(rows)| :: FirstSeen(rows)[i] != FirstSeen(rows)[j]
  {
    if rows != [] {
      var front := rows[..|rows| - 1];
      FirstSeenIsInOrder(front);
      forall p
        ensures p in FirstSeen(rows) <==> exists k | 0 <= k < |rows| :: rows[k].product == p
      {
        if k: nat :| k < |front| && front[k].product == p {
          assert rows[k].product == p;
        }
      }
    }
  }

  /** A product met later is reported later. */
  lemma {:induction false} ReportedInOrder(rows: seq<Row>, i: nat, j: nat, n: nat) returns (m: nat)
    requires i < j < |FirstSeen(rows)| && n < |rows| && rows[n].product == FirstSeen(rows)[j]
    ensures m < n && rows[m].product == FirstSeen(rows)[i]
  {
    var front := rows[..|rows| - 1];
    FirstSeenIsInOrder(front);
    if j < |FirstSeen(front)| && n < |front| {
      m := ReportedInOrder(front, i, j, n);
    } else if j < |FirstSeen(front)| {
      var n' :| 0 <= n' < |front| && front[n'].product == FirstSeen(front)[j];
      m := ReportedInOrder(front, i, j, n');
    } else {
      assert FirstSeen(front)[i] in FirstSeen(front);
      m :| 0 <= m < |front| && front[m].product == FirstSeen(front)[i];
      assert FirstSeen(rows)[j] == rows[|front|].product && rows[|front|].product !in FirstSeen(front);
      assert forall x | 0 <= x < |front| :: front[x].product in FirstSeen(front);
    }
  }

  lemma {:induction false} ReportLength(rows: seq<Row>, products: seq<nat>)
    ensures |Report(rows, products)| == |products|
  {
    if products != [] {
      ReportLength(rows, products[..|products| - 1]);
    }
  }

  lemma {:induction false} ReportAt(rows: seq<Row>, products: seq<nat>, k: nat)
    requires k < |products|
    ensures |Report(rows, products)| == |products|
    ensures Report(rows, products)[k] == WishLine(products[k], ChosenVariant(rows, products[k]))
  {
    var last := |products| - 1;
    ReportLength(rows, products);
    ReportLength(rows, products[..last]);
    if k < last {
      ReportAt(rows, products[..last], k);
    }
  }

  ghost predicate Meets(rows: seq<Row>, product: nat, before: int) {
    exists k | 0 <= k < |rows| && k < before :: rows[k].product == product
  }

  /** One more of the variant would be on the shelf and within the ninety-nine a line may hold. */
  predicate TakesOneMore(r: Row) {
    r.inCart + 1 <= r.stock && r.inCart + 1 <= 99
  }

  /** What a report says of one product: the variant of its first row that takes one more, or that none does. */
  ghost predicate ToldRightly(rows: seq<Row>, line: WishLine) {
    if line.added.Some? then
      exists k: nat ::
        && k < |rows| && rows[k].product == line.product && TakesOneMore(rows[k]) && rows[k].variant == line.added.value
        && forall j | 0 <= j < k && rows[j].product == line.product :: !TakesOneMore(rows[j])
    else forall k | 0 <= k < |rows| && rows[k].product == line.product :: !TakesOneMore(rows[k])
  }

  lemma RoomIsOneMore(r: Row)
    ensures HasRoom(r) <==> TakesOneMore(r)
  {
  }

  /** A line for each saved product, none for any other, and none twice. */
  ghost predicate OneLineEach(rows: seq<Row>, lines: seq<WishLine>) {
    && (forall k | 0 <= k < |rows| :: exists n | 0 <= n < |lines| :: lines[n].product == rows[k].product)
    && (forall n | 0 <= n < |lines| :: Meets(rows, lines[n].product, |rows|))
    && (forall i, j | 0 <= i < j < |lines| :: lines[i].product != lines[j].product)
  }

  /** A line's product is met before every row of a later line's product. */
  ghost predicate InMeetingOrder(rows: seq<Row>, lines: seq<WishLine>) {
    forall i, j, n | 0 <= i < j < |lines| && 0 <= n < |rows| && rows[n].product == lines[j].product ::
      Meets(rows, lines[i].product, n)
  }

  lemma ChosenIsRight(rows: seq<Row>, product: nat)
    ensures ToldRightly(rows, WishLine(product, ChosenVariant(rows, product)))
  {
    var k := FirstFit(rows, product);
    forall j | 0 <= j < |rows|
      ensures Fits(rows[j], product) <==> rows[j].product == product && TakesOneMore(rows[j])
    {
      RoomIsOneMore(rows[j]);
    }
    if k.Some? {
      assert IsFirstFit(rows, product, k.value);
    }
  }

  ghost predicate Names(lines: seq<WishLine>, products: seq<nat>) {
    |lines| == |products| && forall n | 0 <= n < |lines| :: lines[n].product == products[n]
  }

  lemma ReportNames(rows: seq<Row>, products: seq<nat>)
    ensures Names(Report(rows, products), products)
    ensures forall n | 0 <= n < |Report(rows, products)| :: ToldRightly(rows, Report(rows, products)[n])
  {
    ReportLength(rows, products);
    forall n | 0 <= n < |products|
      ensures Report(rows, products)[n].product == products[n] && ToldRightly(rows, Report(rows, products)[n])
    {
      ReportAt(rows, products, n);
      ChosenIsRight(rows, products[n]);
    }
  }

  lemma NamesEach(rows: seq<Row>, lines: seq<WishLine>)
    requires Names(lines, FirstSeen(rows))
    ensures OneLineEach(rows, lines)
  {
    var products := FirstSeen(rows);
    FirstSeenIsInOrder(rows);
    forall k | 0 <= k < |rows|
      ensures exists n | 0 <= n < |lines| :: lines[n].product == rows[k].product
    {
      assert rows[k].product in products;
      var n :| 0 <= n < |products| && products[n] == rows[k].product;
      assert lines[n].product == rows[k].product;
    }
    forall n | 0 <= n < |lines|
      ensures Meets(rows, lines[n].product, |rows|)
    {
      assert products[n] in products;
    }
  }

  lemma NamesInOrder(rows: seq<Row>, lines: seq<WishLine>)
    requires Names(lines, FirstSeen(rows))
    ensures InMeetingOrder(rows, lines)
  {
    forall i, j, n | 0 <= i < j < |lines| && 0 <= n < |rows| && rows[n].product == lines[j].product
      ensures Meets(rows, lines[i].product, n)
    {
      var m := ReportedInOrder(rows, i, j, n);
    }
  }

  /** The report has one line for each saved product, in the order they are met, and each line is true. */
  lemma ReportIsComplete(rows: seq<Row>)
    ensures
      var lines := Report(rows, FirstSeen(rows));
      && OneLineEach(rows, lines)
      && InMeetingOrder(rows, lines)
      && forall n | 0 <= n < |lines| :: ToldRightly(rows, lines[n])
  {
    var lines := Report(rows, FirstSeen(rows));
    ReportNames(rows, FirstSeen(rows));
    NamesEach(rows, lines);
    NamesInOrder(rows, lines);
  }

  /** How many report lines added one of this variant. */
  function AddedTimes(lines: seq<WishLine>, v: nat): nat {
    if lines == [] then 0
    else AddedTimes(lines[..|lines| - 1], v) + if lines[|lines| - 1].added == Some(v) then 1 else 0
  }

  /** The cart grows by exactly what the report says. */
  lemma {:induction false} AddReportedGain(cart: seq<CartLine>, lines: seq<WishLine>, v: nat)
    ensures QtyInCart(AddReported(cart, lines), v) == QtyInCart(cart, v) + AddedTimes(lines, v)
  {
    if lines != [] {
      var front, last := lines[..|lines| - 1], lines[|lines| - 1];
      AddReportedGain(cart, front, v);
      if last.added.Some? {
        var before := AddReported(cart, front);
        Sorting.SetLineQty(before, last.added.value, QtyInCart(before, last.added.value) + 1, v);
      }
    }
  }

  /** A variant belongs to one product. */
  ghost predicate OneProductEach(rows: seq<Row>) {
    forall i, j | 0 <= i < |rows| && 0 <= j < |rows| && rows[i].variant == rows[j].variant ::
      rows[i].product == rows[j].product
  }

  ghost predicate Picks(rows: seq<Row>, products: seq<nat>, v: nat) {
    exists k | 0 <= k < |products| :: ChosenVariant(rows, products[k]) == Some(v)
  }

  lemma OtherProductsPickOthers(rows: seq<Row>, products: seq<nat>, p: nat, v: nat)
    requires OneProductEach(rows) && p !in products && ChosenVariant(rows, p) == Some(v)
    ensures !Picks(rows, products, v)
  {
    if k: nat :| k < |products| && ChosenVariant(rows, products[k]) == Some(v) {
      SameChoiceSameProduct(rows, p, products[k], v);
    }
  }

  /** No two products pick one variant, so none is added twice. */
  lemma {:induction false} AddedAtMostOnce(rows: seq<Row>, products: seq<nat>, v: nat)
    requires OneProductEach(rows)
    requires forall i, j | 0 <= i < j < |products| :: products[i] != products[j]
    ensures AddedTimes(Report(rows, products), v) == if Picks(rows, products, v) then 1 else 0
  {
    if products != [] {
      var n := |products| - 1;
      var front := products[..n];
      AddedAtMostOnce(rows, front, v);
      var lines := Report(rows, products);
      assert lines[..|lines| - 1] == Report(rows, front);
      if ChosenVariant(rows, products[n]) == Some(v) {
        OtherProductsPickOthers(rows, front, products[n], v);
      }
      assert Picks(rows, products, v) <==> Picks(rows, front, v) || ChosenVariant(rows, products[n]) == Some(v) by {
        if Picks(rows, front, v) {
          var k :| 0 <= k < |front| && ChosenVariant(rows, front[k]) == Some(v);
          assert products[k] == front[k];
        }
      }
    }
  }

  lemma SameChoiceSameProduct(rows: seq<Row>, p: nat, q: nat, v: nat)
    requires OneProductEach(rows) && ChosenVariant(rows, p) == Some(v) && ChosenVariant(rows, q) == Some(v)
    ensures p == q
  {
    var i, j := FirstFit(rows, p).value, FirstFit(rows, q).value;
    assert rows[i].variant == rows[j].variant;
  }

  /**
   * Adding the wishlist gives each variant at most one more unit, and one more
   * exactly when it is its product's first variant with room; a truthful read
   * then never overfills the line.
   */
  lemma AddAllAddsOnePerProduct(cart: seq<CartLine>, rows: seq<Row>, v: nat)
    requires OneProductEach(rows)
    requires forall k | 0 <= k < |rows| :: rows[k].inCart == QtyInCart(cart, rows[k].variant)
    ensures
      var after := AddReported(cart, Report(rows, FirstSeen(rows)));
      && QtyInCart(after, v) == QtyInCart(cart, v) + (if Picks(rows, FirstSeen(rows), v) then 1 else 0)
      && (forall p | p in FirstSeen(rows) && ChosenVariant(rows, p) == Some(v) ::
            QtyInCart(after, v) <= Min(rows[FirstFit(rows, p).value].stock, 99))
  {
    FirstSeenIsInOrder(rows);
    AddReportedGain(cart, Report(rows, FirstSeen(rows)), v);
    AddedAtMostOnce(rows, FirstSeen(rows), v);
  }
}
