/**
 * What goes with the cart when a placed order empties it, while its owner was
 * editing it (backend/internal/store/orders.go, cart.go).
 *
 * No line that the order does not have is ever lost, but a quantity can be: an
 * order sweeps away nothing but what it contains if and only if, variant by
 * variant, the last edit since the cart was read set the ordered quantity or took
 * the line out.
 */
module CartSweeps {
  import opened Wrappers
  import opened Transactions
  import opened Sorting
  import opened Concurrency
  import opened CartRaces
  import opened OneLine
  import CapRace
  import Ledger

  // ----- What an order sweeps away -----------------------------------------------------------------

  predicate TakesEffect(db: Shop, e: Edit) {
    e.Take? || (e.variant in db.stock && e.qty > 0)
  }

  /** The last edit of a variant that was not refused. */
  function LastOn(db: Shop, es: seq<Edit>, v: nat): Option<Edit> {
    if es == [] then None
    else
      var e := es[|es| - 1];
      if e.variant == v && TakesEffect(db, e) then Some(e) else LastOn(db, es[..|es| - 1], v)
  }

  function QtyAfter(last: Option<Edit>, before: int): int {
    if last.None? then before else if last.value.Take? then 0 else last.value.qty
  }

  lemma EditedQty(db: Shop, u: nat, e: Edit, v: nat)
    requires UniqueCart(CartOf(db, u))
    ensures UniqueCart(CartOf(Edited(db, u, e), u))
    ensures QtyInCart(CartOf(Edited(db, u, e), u), v) ==
            if e.variant == v && TakesEffect(db, e) then QtyAfter(Some(e), 0) else QtyInCart(CartOf(db, u), v)
  {
    match e {
      case Put(variant, qty) =>
        SetLineUnique(CartOf(db, u), variant, qty);
        SetLineQty(CartOf(db, u), variant, qty, v);
      case Take(variant) =>
        DropLineUnique(CartOf(db, u), variant);
        DropLineQty(CartOf(db, u), variant, v);
    }
  }

  /** The last edit of a variant has the last word on it. */
  lemma {:induction false} LastWord(db: Shop, u: nat, es: seq<Edit>, v: nat)
    requires UniqueCart(CartOf(db, u))
    ensures UniqueCart(CartOf(EditedAll(db, u, es), u))
    ensures QtyInCart(CartOf(EditedAll(db, u, es), u), v) == QtyAfter(LastOn(db, es, v), QtyInCart(CartOf(db, u), v))
  {
    if es != [] {
      var front := es[..|es| - 1];
      LastWord(db, u, front, v);
      EditedAllShape(db, u, front);
      EditedQty(EditedAll(db, u, front), u, es[|es| - 1], v);
    }
  }

  /** At this moment the checkout places its order and empties the cart. */
  ghost predicate Places(w: World, id: nat) {
    CanStep(w.sys, id) && Ending(w.sys.db, w.sys.txns[id]).Some? && Ending(w.sys.db, w.sys.txns[id]).value.Placed?
  }

  function OrderAt(w: World, id: nat): seq<Item>
    requires id in w.sys.txns && w.sys.txns[id].order.Some?
  {
    w.sys.txns[id].order.value.items
  }

  /** Everything in the cart as it is emptied is in the order, in the same quantity. */
  ghost predicate SweepsOnlyTheOrdered(w: World, id: nat)
    requires id in w.sys.txns && w.sys.txns[id].order.Some?
  {
    forall v :: QtyInCart(CartOf(w.sys.db, w.sys.txns[id].req.user), v) in {0, QtyOf(OrderAt(w, id), v)}
  }

  /** Variant by variant the last edit since the cart was read took the line out, or set it to what is ordered. */
  ghost predicate EditsAgree(w: World, id: nat)
    requires id in w.sys.txns && w.sys.txns[id].order.Some?
  {
    var u := w.sys.txns[id].req.user;
    u in w.pending && forall v :: AgreesWith(LastOn(w.sys.db, w.pending[u], v), QtyOf(OrderAt(w, id), v))
  }

  predicate AgreesWith(last: Option<Edit>, ordered: int) {
    match last
    case None => true
    case Some(Take(_)) => true
    case Some(Put(_, qty)) => qty == ordered
  }

  lemma CartAtCommit(w: World, db0: Shop, id: nat, v: nat)
    requires WorldInv(w, db0) && Places(w, id)
    ensures w.sys.txns[id].order.Some? && w.sys.txns[id].req.user in w.pending
    ensures
      var u := w.sys.txns[id].req.user;
      QtyInCart(CartOf(w.sys.db, u), v) == QtyAfter(LastOn(w.sys.db, w.pending[u], v), QtyOf(OrderAt(w, id), v))
  {
    var t := w.sys.txns[id];
    var u := t.req.user;
    SameChances(w, id);
    EndsWithCart(w.sys.db, t);
    assert OpenCart(w.sys, u);
    PlacedItems(Shadow(w), t);
    Ledger.OrderedQty(Shadow(w), CartOf(Shadow(w), u), t.req, v);
    LastWord(Shadow(w), u, w.pending[u], v);
    LastOnIgnoresCarts(Shadow(w), w.sys.db, w.pending[u], v);
    assert SameCart(w.sys.db, EditedAll(Shadow(w), u, w.pending[u]), u);
  }

  lemma {:induction false} LastOnIgnoresCarts(a: Shop, b: Shop, es: seq<Edit>, v: nat)
    requires a.stock == b.stock
    ensures LastOn(a, es, v) == LastOn(b, es, v)
  {
    if es != [] {
      LastOnIgnoresCarts(a, b, es[..|es| - 1], v);
    }
  }

  /**
   * A placed order sweeps away nothing but what it contains if and only if the edits made
   * while it was under way agree with it.
   */
  lemma SweepsIff(db: Shop, reqs: map<nat, Request>, events: seq<Event>, id: nat)
    requires Keyed(db) && Places(NoteAll(db, reqs, events), id)
    ensures
      var w := NoteAll(db, reqs, events);
      && w.sys.txns[id].order.Some?
      && CartOf(NoteTurn(w, id).sys.db, w.sys.txns[id].req.user) == []
      && (SweepsOnlyTheOrdered(w, id) <==> EditsAgree(w, id))
  {
    var w := NoteAll(db, reqs, events);
    NoteAllInv(db, reqs, events);
    CartAtCommit(w, db, id, 0);
    PlacedWrites(w, db, id, Ending(w.sys.db, w.sys.txns[id]).value);
    SweepsHere(w, db, id);
    EditedSweeps(w, id);
  }

  /** Each variant's quantity as the cart is emptied is the last word of the edits on the ordered one. */
  ghost predicate CartIsEdited(w: World, id: nat)
    requires id in w.sys.txns && w.sys.txns[id].order.Some? && w.sys.txns[id].req.user in w.pending
  {
    var u := w.sys.txns[id].req.user;
    forall v :: QtyInCart(CartOf(w.sys.db, u), v) == QtyAfter(LastOn(w.sys.db, w.pending[u], v), QtyOf(OrderAt(w, id), v))
  }

  lemma SweepsHere(w: World, db0: Shop, id: nat)
    requires WorldInv(w, db0) && Places(w, id) && w.sys.txns[id].order.Some? && w.sys.txns[id].req.user in w.pending
    ensures CartIsEdited(w, id)
  {
    var u := w.sys.txns[id].req.user;
    forall v
      ensures QtyInCart(CartOf(w.sys.db, u), v) == QtyAfter(LastOn(w.sys.db, w.pending[u], v), QtyOf(OrderAt(w, id), v))
    {
      CartAtCommit(w, db0, id, v);
    }
  }

  lemma {:induction false} LastIsEffective(db: Shop, es: seq<Edit>, v: nat)
    ensures LastOn(db, es, v).Some? ==> LastOn(db, es, v).value.Put? ==> LastOn(db, es, v).value.qty > 0
  {
    if es != [] {
      LastIsEffective(db, es[..|es| - 1], v);
    }
  }

  lemma EditedSweeps(w: World, id: nat)
    requires id in w.sys.txns && w.sys.txns[id].order.Some? && w.sys.txns[id].req.user in w.pending && CartIsEdited(w, id)
    ensures SweepsOnlyTheOrdered(w, id) <==> EditsAgree(w, id)
  {
    var u := w.sys.txns[id].req.user;
    forall v
      ensures
        var last, ordered := LastOn(w.sys.db, w.pending[u], v), QtyOf(OrderAt(w, id), v);
        QtyAfter(last, ordered) in {0, ordered} <==> AgreesWith(last, ordered)
    {
      LastIsEffective(w.sys.db, w.pending[u], v);
    }
  }

  /** A quantity set while the checkout was under way, other than the ordered one, is gone with the cart. */
  lemma LateQuantityIsLost(db: Shop, reqs: map<nat, Request>, events: seq<Event>, id: nat, v: nat, qty: int)
    requires Keyed(db) && Places(NoteAll(db, reqs, events), id)
    requires
      var w := NoteAll(db, reqs, events);
      && w.sys.txns[id].order.Some? && w.sys.txns[id].req.user in w.pending
      && LastOn(w.sys.db, w.pending[w.sys.txns[id].req.user], v) == Some(Put(v, qty))
      && qty != QtyOf(OrderAt(w, id), v)
    ensures
      var w := NoteAll(db, reqs, events);
      && QtyInCart(CartOf(w.sys.db, w.sys.txns[id].req.user), v) == qty
      && CartOf(NoteTurn(w, id).sys.db, w.sys.txns[id].req.user) == []
      && !SweepsOnlyTheOrdered(w, id)
  {
    var w := NoteAll(db, reqs, events);
    NoteAllInv(db, reqs, events);
    CartAtCommit(w, db, id, v);
    SweepsIff(db, reqs, events, id);
    LastIsEffective(w.sys.db, w.pending[w.sys.txns[id].req.user], v);
  }

  // ----- What is never lost ------------------------------------------------------------------------

  /** The customer's cart has no line that it did not have when the open checkout read it. */
  ghost predicate NoNewLine(w: World, u: nat) {
    forall v | HasLine(CartOf(w.sys.db, u), v) :: HasLine(CartOf(Shadow(w), u), v)
  }

  ghost predicate NoNewLines(w: World) {
    forall u | u in w.pending :: NoNewLine(w, u)
  }

  lemma SameCarts(w: World, w': World, u: nat)
    requires NoNewLine(w, u) && SameCart(w'.sys.db, w.sys.db, u) && SameCart(Shadow(w'), Shadow(w), u)
    ensures NoNewLine(w', u)
  {
    assert CartOf(w'.sys.db, u) == CartOf(w.sys.db, u) && CartOf(Shadow(w'), u) == CartOf(Shadow(w), u);
  }

  lemma {:induction false} SetLineFrom(cart: seq<CartLine>, v: nat, qty: int, w: nat)
    requires HasLine(SetLine(cart, v, qty), w)
    ensures w == v || HasLine(cart, w)
  {
    var after := SetLine(cart, v, qty);
    var i: nat :| i < |after| && after[i].variant == w;
    if cart != [] && i > 0 {
      if cart[0].variant == v {
        assert cart[i].variant == w;
      } else {
        var rest := SetLine(cart[1..], v, qty);
        assert rest[i - 1].variant == w;
        SetLineFrom(cart[1..], v, qty, w);
        if w != v {
          TailHasLine(cart, w);
        }
      }
    }
  }

  lemma TailHasLine(cart: seq<CartLine>, w: nat)
    requires cart != [] && HasLine(cart[1..], w)
    ensures HasLine(cart, w)
  {
    var k: nat :| k < |cart[1..]| && cart[1..][k].variant == w;
    assert cart[k + 1].variant == w;
  }

  lemma {:induction false} DropLineFrom(cart: seq<CartLine>, v: nat, w: nat)
    requires HasLine(DropLine(cart, v), w)
    ensures HasLine(cart, w)
  {
    var after := DropLine(cart, v);
    var i: nat :| i < |after| && after[i].variant == w;
    if cart[0].variant == v {
      TailHasLine(cart, w);
    } else if i > 0 {
      assert DropLine(cart[1..], v)[i - 1].variant == w;
      DropLineFrom(cart[1..], v, w);
      TailHasLine(cart, w);
    }
  }

  /** An edit that does not wait adds no line to a cart whose owner's row is locked. */
  lemma EditAddsNoLine(s: Sys, u: nat, e: Edit, v: nat)
    requires !Waits(s, u, e) && UserRow(u) in s.owner && HasLine(CartOf(Edited(s.db, u, e), u), v)
    ensures HasLine(CartOf(s.db, u), v)
  {
    match e {
      case Put(variant, qty) =>
        if variant in s.db.stock && qty > 0 {
          SetLineFrom(CartOf(s.db, u), variant, qty, v);
        }
      case Take(variant) => DropLineFrom(CartOf(s.db, u), variant, v);
    }
  }

  lemma PendingHoldsUser(w: World, db0: Shop, u: nat)
    requires WorldInv(w, db0) && u in w.pending
    ensures UserRow(u) in w.sys.owner
  {
    var id :| id in w.sys.txns && HasCart(w.sys.txns[id]) && w.sys.txns[id].req.user == u;
    HolderOwns(Shadow(w), w.sys.txns, w.sys.owner, id, UserRow(u));
  }

  lemma OwnChangeAddsNoLine(w: World, db0: Shop, u: nat, edit: Edit)
    requires WorldInv(w, db0) && u in w.pending && NoNewLine(w, u) && !Waits(w.sys, u, edit)
    ensures NoNewLine(NoteChange(w, u, edit), u)
  {
    PendingChangeShadow(w, u, edit);
    PendingHoldsUser(w, db0, u);
    forall v | HasLine(CartOf(Edited(w.sys.db, u, edit), u), v)
      ensures HasLine(CartOf(Shadow(w), u), v)
    {
      EditAddsNoLine(w.sys, u, edit, v);
    }
  }

  lemma OtherChangeAddsNoLine(w: World, user: nat, edit: Edit, u: nat)
    requires w.seen.Keys <= w.pending.Keys && NoNewLine(w, u) && u != user && !Waits(w.sys, user, edit)
    ensures NoNewLine(NoteChange(w, user, edit), u)
  {
    EditedShape(w.sys.db, user, edit);
    EditedShape(Shadow(w), user, edit);
    if user in w.pending {
      PendingChangeShadow(w, user, edit);
    } else {
      CountingChangeShadow(w, user, edit);
    }
    SameCarts(w, NoteChange(w, user, edit), u);
  }

  lemma ChangeAddsNoLine(w: World, db0: Shop, user: nat, edit: Edit)
    requires WorldInv(w, db0) && NoNewLines(w) && !Waits(w.sys, user, edit)
    ensures NoNewLines(NoteChange(w, user, edit))
  {
    var w' := NoteChange(w, user, edit);
    forall u | u in w'.pending
      ensures NoNewLine(w', u)
    {
      if u == user {
        OwnChangeAddsNoLine(w, db0, u, edit);
      } else {
        OtherChangeAddsNoLine(w, user, edit, u);
      }
    }
  }

  lemma EndAddsNoLine(w: World, db0: Shop, id: nat, reply: Reply)
    requires Ends(w, db0, id, reply) && NoNewLines(w)
    ensures NoNewLines(NoteTurn(w, id))
  {
    EndKeys(w, db0, id, reply);
    forall u | u in NoteTurn(w, id).pending
      ensures NoNewLine(NoteTurn(w, id), u)
    {
      EndRests(w, db0, id, reply, u);
      SameCarts(w, NoteTurn(w, id), u);
    }
  }

  lemma ReadAddsNoLine(w: World, db0: Shop, id: nat)
    requires WorldInv(w, db0) && NoNewLines(w) && CanStep(w.sys, id)
    requires Ending(w.sys.db, w.sys.txns[id]).None? && w.sys.txns[id].phase == ReadingCart
    ensures NoNewLines(NoteTurn(w, id))
  {
    var w', user := NoteTurn(w, id), w.sys.txns[id].req.user;
    NotReadTwice(w, db0, id);
    ReadingShadow(w, id);
    MaskedAt(w.sys.db, w.pending.Keys, w.seen, user);
    assert CartOf(w'.sys.db, user) == CartOf(Shadow(w'), user);
    forall u | u in w.pending
      ensures NoNewLine(w', u)
    {
      SameCarts(w, w', u);
    }
  }

  lemma QuietAddsNoLine(w: World, id: nat)
    requires NoNewLines(w) && CanStep(w.sys, id)
    requires Ending(w.sys.db, w.sys.txns[id]).None? && w.sys.txns[id].phase != ReadingCart
    ensures NoNewLines(NoteTurn(w, id))
  {
    forall u | u in w.pending
      ensures NoNewLine(NoteTurn(w, id), u)
    {
      SameCarts(w, NoteTurn(w, id), u);
    }
  }

  lemma TurnAddsNoLine(w: World, db0: Shop, id: nat)
    requires WorldInv(w, db0) && NoNewLines(w) && CanStep(w.sys, id)
    ensures NoNewLines(NoteTurn(w, id))
  {
    var end := Ending(w.sys.db, w.sys.txns[id]);
    if end.Some? {
      EndAddsNoLine(w, db0, id, end.value);
    } else if w.sys.txns[id].phase == ReadingCart {
      ReadAddsNoLine(w, db0, id);
    } else {
      QuietAddsNoLine(w, id);
    }
  }

  lemma {:induction false} NoteAllAddsNoLine(db: Shop, reqs: map<nat, Request>, events: seq<Event>)
    requires Keyed(db)
    ensures NoNewLines(NoteAll(db, reqs, events))
  {
    if events != [] {
      var before := events[..|events| - 1];
      var w := NoteAll(db, reqs, before);
      NoteAllInv(db, reqs, before);
      NoteAllAddsNoLine(db, reqs, before);
      match events[|events| - 1] {
        case Turn(id) =>
          if CanStep(w.sys, id) {
            TurnAddsNoLine(w, db, id);
          }
        case Change(user, edit) =>
          if !Waits(w.sys, user, edit) {
            ChangeAddsNoLine(w, db, user, edit);
          }
      }
    }
  }

  /** Every line that goes with the cart has its variant in the order: no line put in meanwhile is lost. */
  lemma NothingUnorderedIsSwept(db: Shop, reqs: map<nat, Request>, events: seq<Event>, id: nat, v: nat)
    requires Keyed(db) && Places(NoteAll(db, reqs, events), id)
    ensures
      var w := NoteAll(db, reqs, events);
      && w.sys.txns[id].order.Some?
      && (HasLine(CartOf(w.sys.db, w.sys.txns[id].req.user), v) ==>
            exists k | 0 <= k < |OrderAt(w, id)| :: OrderAt(w, id)[k].variant == v)
  {
    var w := NoteAll(db, reqs, events);
    var t := w.sys.txns[id];
    NoteAllInv(db, reqs, events);
    NoteAllAddsNoLine(db, reqs, events);
    CartAtCommit(w, db, id, v);
    SameChances(w, id);
    PlacedItems(Shadow(w), t);
    if HasLine(CartOf(w.sys.db, t.req.user), v) {
      OrderedLine(Shadow(w), CartOf(Shadow(w), t.req.user), t.req, v);
    }
  }

  lemma OrderedLine(db: Shop, cart: seq<CartLine>, req: Request, v: nat)
    requires UniqueCart(cart) && HasLine(cart, v)
    ensures
      var items := ItemsOf(ReadLines(db, ByVariant(cart), req.currency));
      exists k | 0 <= k < |items| :: items[k].variant == v
  {
    var sorted := ByVariant(cart);
    var items := ItemsOf(ReadLines(db, sorted, req.currency));
    ByVariantAscends(cart);
    var i: nat :| i < |cart| && cart[i].variant == v;
    assert cart[i] in sorted;
    var k: nat :| k < |sorted| && sorted[k] == cart[i];
    assert items[k].variant == v;
  }

  // ----- A quantity that is lost ---------------------------------------------------------------------

  function Turns(schedule: seq<nat>): (events: seq<Event>)
    ensures |events| == |schedule|
  {
    if schedule == [] then [] else Turns(schedule[..|schedule| - 1]) + [Turn(schedule[|schedule| - 1])]
  }

  lemma {:induction false} TurnsExecute(s: Sys, schedule: seq<nat>)
    ensures HappenAll(s, Turns(schedule)) == Execute(s, schedule)
  {
    if schedule != [] {
      var front := schedule[..|schedule| - 1];
      TurnsExecute(s, front);
      assert Turns(schedule)[..|Turns(front)|] == Turns(front);
    }
  }

  lemma {:induction false} HappenConcat(s: Sys, first: seq<Event>, more: seq<Event>)
    ensures HappenAll(s, first + more) == HappenAll(HappenAll(s, first), more)
  {
    if more == [] {
      assert first + more == first;
    } else {
      HappenConcat(s, first, more[..|more| - 1]);
      assert (first + more)[..|first + more| - 1] == first + more[..|more| - 1];
    }
  }

  /** The customer changes the quantity after the checkout has read it, and before it commits. */
  function LateEdit(id: nat, user: nat, edit: Edit): seq<Event> {
    Turns(FiveTurns(id)) + [Change(user, edit)] + Turns(FourTurns(id))
  }

  /** The checkout waits for its code, if it has one, and the cart has been changed. */
  ghost predicate EditedMeanwhile(db: Shop, s: Sys, id: nat, req: Request, line: CartLine, qty: int) {
    && s.db == db.(carts := db.carts[req.user := [CartLine(line.variant, qty)]]) && s.log == []
    && id in s.txns && s.txns[id] == WaitsWith(db, req, line)
    && s.owner == Locked(map[], id, req.user, line.variant)
  }

  lemma EditGoesThrough(db: Shop, reqs: map<nat, Request>, id: nat, line: CartLine, qty: int)
    requires id in reqs && Sellable(db, reqs[id], line) && line.variant in db.stock && qty > 0
    ensures
      var events := Turns(FiveTurns(id)) + [Change(reqs[id].user, Put(line.variant, qty))];
      EditedMeanwhile(db, HappenAll(Begin(db, reqs), events), id, reqs[id], line, qty)
  {
    var s0, change := Begin(db, reqs), Change(reqs[id].user, Put(line.variant, qty));
    Asks(s0, id, reqs[id], line);
    TurnsExecute(s0, FiveTurns(id));
    assert (Turns(FiveTurns(id)) + [change])[..|Turns(FiveTurns(id))|] == Turns(FiveTurns(id));
    assert [line][0].variant == line.variant && [line][1..] == [];
    assert HasLine([line], line.variant);
    assert SetLine([line], line.variant, qty) == [CartLine(line.variant, qty)];
  }

  lemma EditUnseen(db: Shop, s: Sys, id: nat, req: Request, line: CartLine, qty: int)
    requires EditedMeanwhile(db, s, id, req, line, qty)
    ensures RateIn(s.db.catalog, req.currency) == RateIn(db.catalog, req.currency)
    ensures PromoSeen(s.db, req.user, Redeemed(db, req.user)) == PromoSeen(db, req.user, Redeemed(db, req.user))
    ensures PriorOrders(s.db, req.user) == PriorOrders(db, req.user)
  {
  }

  lemma LateEditPlaces(db: Shop, s: Sys, id: nat, req: Request, line: CartLine, qty: int, o: Order)
    requires EditedMeanwhile(db, s, id, req, line, qty) && CartOf(db, req.user) == [line]
    requires Decide(Read(db, req), req) == Success(o) && !Conflicts(db, req.user, o)
    ensures
      var s' := Execute(s, FourTurns(id));
      WroteOrder(s.db, s'.db, req.user, o) && |s'.log| == 1 && s'.log[0].reply == Placed(|db.orders|)
  {
    LineReads(db, req, line);
    EditUnseen(db, s, id, req, line, qty);
    var saw := Redeemed(db, req.user);
    PlacesOrder(s, id, req, line, ReadLine(db, line, req.currency), saw, o, PromoSeen(db, req.user, saw));
  }

  /** The order has the old quantity, and the new one is gone with the cart. */
  ghost predicate LosesQuantity(db: Shop, reqs: map<nat, Request>, id: nat, line: CartLine, qty: int)
    requires id in reqs
  {
    var user := reqs[id].user;
    var events := LateEdit(id, user, Put(line.variant, qty));
    var s := HappenAll(Begin(db, reqs), events);
    && CartOf(HappenAll(Begin(db, reqs), events[..6]).db, user) == [CartLine(line.variant, qty)]
    && |s.log| == 1 && s.log[0].reply == Placed(|db.orders|)
    && |s.db.orders| == |db.orders| + 1 && |s.db.orders[|db.orders|].items| == 1
    && s.db.orders[|db.orders|].items[0].variant == line.variant && s.db.orders[|db.orders|].items[0].qty == line.qty
    && CartOf(s.db, user) == []
  }

  /** Any checkout of one line that would succeed alone can lose a change of its quantity. */
  lemma LateEditIsLost(db: Shop, reqs: map<nat, Request>, id: nat, line: CartLine, qty: int)
    requires id in reqs && Sellable(db, reqs[id], line) && line.variant in db.stock && qty > 0
    requires Decide(Read(db, reqs[id]), reqs[id]).Success?
    ensures LosesQuantity(db, reqs, id, line, qty)
  {
    var req := reqs[id];
    var o := Decide(Read(db, req), req).value;
    var first := Turns(FiveTurns(id)) + [Change(req.user, Put(line.variant, qty))];
    var s1 := HappenAll(Begin(db, reqs), first);
    EditGoesThrough(db, reqs, id, line, qty);
    HappenConcat(Begin(db, reqs), first, Turns(FourTurns(id)));
    TurnsExecute(s1, FourTurns(id));
    LineReads(db, req, line);
    OneItem(Read(db, req), req, o, db.catalog.productOf);
    DecidedIsNew(db, req);
    LateEditPlaces(db, s1, id, req, line, qty, o);
    assert LateEdit(id, req.user, Put(line.variant, qty))[..6] == first;
  }

  /** One jar in the cart, three wanted after all: one is ordered, and the cart is empty. */
  lemma ThreeForOne(code: nat)
    ensures LosesQuantity(CapRace.Offer(code), CapRace.OfferRequests(), 1, CartLine(1, 1), 3)
  {
    CapRace.OfferBuys(code, 1);
    LateEditIsLost(CapRace.Offer(code), CapRace.OfferRequests(), 1, CartLine(1, 1), 3);
  }
}
