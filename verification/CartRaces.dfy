/**
 * Checkouts and cart edits together. A checkout does not lock the lines it reads,
 * so an edit can fall between its look at the cart and the emptying of the cart at
 * commit. Only a line that is new has to wait: its foreign keys ask for the rows of
 * the customer and the variant (backend/internal/store/orders.go, cart.go,
 * backend/migrations/000004_create_cart_orders.up.sql).
 *
 * Every interleaving is a serial run of the same checkouts and of the edits,
 * less those that a placed order's emptying has swept away.
 */
module CartRaces {
  import opened Wrappers
  import opened Transactions
  import opened Sorting
  import opened Concurrency
  import Ledger

  datatype Edit = Put(variant: nat, qty: int) | Take(variant: nat)

  function Edited(db: Shop, user: nat, e: Edit): Shop {
    match e
    case Put(variant, qty) => SetCartItem(db, user, variant, qty).shop
    case Take(variant) => DeleteCartItem(db, user, variant).shop
  }

  function EditedAll(db: Shop, user: nat, es: seq<Edit>): Shop {
    if es == [] then db else Edited(EditedAll(db, user, es[..|es| - 1]), user, es[|es| - 1])
  }

  predicate HasLine(cart: seq<CartLine>, v: nat) {
    exists i | 0 <= i < |cart| :: cart[i].variant == v
  }

  // ----- What happens ------------------------------------------------------------------

  /** The next step of a checkout, or one cart edit. */
  datatype Event = Turn(id: nat) | Change(user: nat, edit: Edit)

  /**
   * A line that is not in the cart yet is a new row, and its foreign keys ask for the rows of the customer and
   * the variant: it waits while a checkout has either locked. A change of a line that is there does not.
   */
  predicate Waits(s: Sys, user: nat, edit: Edit) {
    && edit.Put? && !HasLine(CartOf(s.db, user), edit.variant)
    && (UserRow(user) in s.owner || VariantRow(edit.variant) in s.owner)
  }

  function Happen(s: Sys, e: Event): Sys {
    match e
    case Turn(id) => Step(s, id)
    case Change(user, edit) => if Waits(s, user, edit) then s else s.(db := Edited(s.db, user, edit))
  }

  function HappenAll(s: Sys, events: seq<Event>): Sys {
    if events == [] then s else Happen(HappenAll(s, events[..|events| - 1]), events[|events| - 1])
  }

  /** A stretch of one event is that event. */
  lemma HappenOne(s: Sys, e: Event)
    ensures HappenAll(s, [e]) == Happen(s, e)
  {
    assert [e][..0] == [];
    assert HappenAll(s, []) == s;
  }

  /** And any stretch is whatever comes first followed by the rest. */
  lemma {:induction false} HappenInTwo(s: Sys, first: seq<Event>, rest: seq<Event>)
    ensures HappenAll(s, first + rest) == HappenAll(HappenAll(s, first), rest)
  {
    if rest == [] {
      assert first + rest == first;
    } else {
      HappenInTwo(s, first, rest[..|rest| - 1]);
      assert (first + rest)[..|first + rest| - 1] == first + rest[..|rest| - 1];
    }
  }

  /** The new row would refer to this one. */
  predicate RefersTo(s: Sys, user: nat, edit: Edit, row: Row) {
    && edit.Put?
    && (forall i | 0 <= i < |CartOf(s.db, user)| :: CartOf(s.db, user)[i].variant != edit.variant)
    && (row == UserRow(user) || row == VariantRow(edit.variant))
  }

  /** An edit waits while a checkout holds a row that a new line would refer to, and else is made. */
  lemma EditWaitsFor(s: Sys, user: nat, edit: Edit)
    ensures
      var waits := exists row :: row in s.owner && RefersTo(s, user, edit, row);
      Happen(s, Change(user, edit)) == if waits then s else s.(db := Edited(s.db, user, edit))
  {
    if Waits(s, user, edit) {
      var row := if UserRow(user) in s.owner then UserRow(user) else VariantRow(edit.variant);
      assert row in s.owner && RefersTo(s, user, edit, row);
    }
  }

  // ----- What an observer notes down ------------------------------------------------------

  /** A finished checkout with its reply, or an edit that counts. */
  datatype Deed = Ran(req: Request, saw: nat, reply: Reply) | Changed(user: nat, edit: Edit)

  /**
   * Per customer with a checkout that has read the cart: the cart as it was read,
   * if there was one, and the edits since. Edits wait there until the checkout ends;
   * a placed order sweeps them away, a refused one lets them count.
   */
  datatype World = World(sys: Sys, seen: map<nat, seq<CartLine>>, pending: map<nat, seq<Edit>>, history: seq<Deed>)

  function Changes(user: nat, es: seq<Edit>): seq<Deed> {
    if es == [] then [] else Changes(user, es[..|es| - 1]) + [Changed(user, es[|es| - 1])]
  }

  function AtEnd(w: World, t: Txn, reply: Reply): seq<Deed> {
    var u := t.req.user;
    w.history + [Ran(t.req, t.saw, reply)] + if reply.Placed? || u !in w.pending then [] else Changes(u, w.pending[u])
  }

  function NoteTurn(w: World, id: nat): World {
    var s, s' := w.sys, Step(w.sys, id);
    if !CanStep(s, id) then w.(sys := s')
    else
      var t, u := s.txns[id], s.txns[id].req.user;
      var end := Ending(s.db, t);
      if end.Some? then World(s', w.seen - {u}, w.pending - {u}, AtEnd(w, t, end.value))
      else if t.phase == ReadingCart then
        World(s', if u in s.db.carts then w.seen[u := s.db.carts[u]] else w.seen - {u}, w.pending[u := []], w.history)
      else w.(sys := s')
  }

  function NoteChange(w: World, user: nat, edit: Edit): World {
    var s' := Happen(w.sys, Change(user, edit));
    if Waits(w.sys, user, edit) then w
    else if user in w.pending then w.(sys := s', pending := w.pending[user := w.pending[user] + [edit]])
    else w.(sys := s', history := w.history + [Changed(user, edit)])
  }

  function Note(w: World, e: Event): World {
    match e
    case Turn(id) => NoteTurn(w, id)
    case Change(user, edit) => NoteChange(w, user, edit)
  }

  function NoteAll(db: Shop, reqs: map<nat, Request>, events: seq<Event>): World {
    if events == [] then World(Begin(db, reqs), map[], map[], [])
    else Note(NoteAll(db, reqs, events[..|events| - 1]), events[|events| - 1])
  }

  lemma NoteSys(w: World, e: Event)
    ensures Note(w, e).sys == Happen(w.sys, e)
  {
  }

  /** The observer only looks on. */
  lemma {:induction false} NotingChangesNothing(db: Shop, reqs: map<nat, Request>, events: seq<Event>)
    ensures NoteAll(db, reqs, events).sys == HappenAll(Begin(db, reqs), events)
  {
    if events != [] {
      var front := events[..|events| - 1];
      NotingChangesNothing(db, reqs, front);
      NoteSys(NoteAll(db, reqs, front), events[|events| - 1]);
    }
  }

  function AfterDeed(db: Shop, d: Deed): Shop {
    match d
    case Ran(req, saw, _) => CreateSeeing(db, req, saw).shop
    case Changed(user, edit) => Edited(db, user, edit)
  }

  /** The deeds one after another. */
  function Replay(db: Shop, history: seq<Deed>): Shop {
    if history == [] then db else AfterDeed(Replay(db, history[..|history| - 1]), history[|history| - 1])
  }

  /** A checkout among the deeds got the reply it gets on these tables, going by a count that was not too high. */
  predicate Holding(db: Shop, d: Deed) {
    d.Ran? ==> CreateSeeing(db, d.req, d.saw).reply == d.reply && d.saw <= Redeemed(db, d.req.user)
  }

  ghost predicate RepliesHold(db: Shop, history: seq<Deed>) {
    forall k | 0 <= k < |history| :: Holding(Replay(db, history[..k]), history[k])
  }

  // ----- The tables as the open checkouts see them -------------------------------------------

  /** The tables with some customers' carts replaced by those seen, or by none. */
  function Masked(db: Shop, hidden: set<nat>, seen: map<nat, seq<CartLine>>): Shop {
    db.(carts := (db.carts - hidden) + seen)
  }

  /** The committed tables, but with the carts that open checkouts have read as they were read. */
  function Shadow(w: World): Shop {
    Masked(w.sys.db, w.pending.Keys, w.seen)
  }

  function ShadowSys(w: World): Sys {
    w.sys.(db := Shadow(w))
  }

  lemma MaskedAt(db: Shop, hidden: set<nat>, seen: map<nat, seq<CartLine>>, u: nat)
    requires seen.Keys <= hidden
    ensures u !in hidden ==> SameCart(Masked(db, hidden, seen), db, u)
    ensures
      var masked := Masked(db, hidden, seen);
      u in hidden ==> (u in masked.carts <==> u in seen) && (u in seen ==> masked.carts[u] == seen[u])
  {
  }

  lemma SameShop(a: Shop, b: Shop)
    requires SameButCarts(a, b) && forall u :: SameCart(a, b, u)
    ensures a == b
  {
    forall u
      ensures (u in a.carts <==> u in b.carts) && (u in a.carts ==> a.carts[u] == b.carts[u])
    {
      assert SameCart(a, b, u);
    }
    assert a.carts == b.carts;
  }

  /** Reading a cart masks it as it is. */
  lemma MaskedRead(db: Shop, hidden: set<nat>, seen: map<nat, seq<CartLine>>, u: nat)
    requires seen.Keys <= hidden && u !in hidden
    ensures
      var more := if u in db.carts then seen[u := db.carts[u]] else seen - {u};
      more.Keys <= hidden + {u} && Masked(db, hidden + {u}, more) == Masked(db, hidden, seen)
  {
    var more := if u in db.carts then seen[u := db.carts[u]] else seen - {u};
    forall v
      ensures SameCart(Masked(db, hidden + {u}, more), Masked(db, hidden, seen), v)
    {
      MaskedAt(db, hidden, seen, v);
      MaskedAt(db, hidden + {u}, more, v);
    }
    SameShop(Masked(db, hidden + {u}, more), Masked(db, hidden, seen));
  }

  /** A change of one masked cart does not show. */
  lemma MaskedHides(db: Shop, db': Shop, hidden: set<nat>, seen: map<nat, seq<CartLine>>, u: nat)
    requires seen.Keys <= hidden && u in hidden
    requires SameButCarts(db', db) && forall v | v != u :: SameCart(db', db, v)
    ensures Masked(db', hidden, seen) == Masked(db, hidden, seen)
  {
    forall v
      ensures SameCart(Masked(db', hidden, seen), Masked(db, hidden, seen), v)
    {
      MaskedAt(db, hidden, seen, v);
      MaskedAt(db', hidden, seen, v);
      if v != u {
        assert SameCart(db', db, v);
      }
    }
    SameShop(Masked(db', hidden, seen), Masked(db, hidden, seen));
  }

  /** A change of one cart that is not masked shows as itself. */
  lemma MaskedShows(db: Shop, db': Shop, hidden: set<nat>, seen: map<nat, seq<CartLine>>, u: nat, changed: Shop)
    requires seen.Keys <= hidden && u !in hidden
    requires SameButCarts(db', db) && forall v | v != u :: SameCart(db', db, v)
    requires SameButCarts(changed, db) && forall v | v != u :: SameCart(changed, Masked(db, hidden, seen), v)
    requires SameCart(changed, db', u)
    ensures Masked(db', hidden, seen) == changed
  {
    forall v
      ensures SameCart(Masked(db', hidden, seen), changed, v)
    {
      MaskedAt(db, hidden, seen, v);
      MaskedAt(db', hidden, seen, v);
      if v != u {
        assert SameCart(db', db, v) && SameCart(changed, Masked(db, hidden, seen), v);
      }
    }
    SameShop(Masked(db', hidden, seen), changed);
  }

  /** Taking the mask off one cart leaves the others, and that one is the real one. */
  lemma MaskOff(db: Shop, hidden: set<nat>, seen: map<nat, seq<CartLine>>, u: nat, changed: Shop)
    requires seen.Keys <= hidden
    requires SameButCarts(changed, db) && forall v | v != u :: SameCart(changed, Masked(db, hidden, seen), v)
    requires SameCart(changed, db, u)
    ensures (seen - {u}).Keys <= hidden - {u} && Masked(db, hidden - {u}, seen - {u}) == changed
  {
    forall v
      ensures SameCart(Masked(db, hidden - {u}, seen - {u}), changed, v)
    {
      MaskedAt(db, hidden, seen, v);
      MaskedAt(db, hidden - {u}, seen - {u}, v);
      if v != u {
        assert SameCart(changed, Masked(db, hidden, seen), v);
      }
    }
    SameShop(Masked(db, hidden - {u}, seen - {u}), changed);
  }

  predicate HasCart(t: Txn) {
    t.phase in {LockingVariants, AskingPromo, LockingPromo, PricingBasket, LockingProducts}
  }

  ghost predicate OpenCart(s: Sys, u: nat) {
    exists id :: id in s.txns && HasCart(s.txns[id]) && s.txns[id].req.user == u
  }

  predicate SameCart(a: Shop, b: Shop, u: nat) {
    (u in a.carts <==> u in b.carts) && (u in a.carts ==> a.carts[u] == b.carts[u])
  }

  /** A customer's real cart is the one that was read with the edits since. */
  ghost predicate PendingExplains(w: World) {
    forall u | u in w.pending :: SameCart(w.sys.db, EditedAll(Shadow(w), u, w.pending[u]), u)
  }

  ghost predicate WorldInv(w: World, db0: Shop) {
    && LocksSound(ShadowSys(w))
    && w.seen.Keys <= w.pending.Keys
    && (forall u :: u in w.pending <==> OpenCart(w.sys, u))
    && PendingExplains(w)
    && Shadow(w) == Replay(db0, w.history)
    && RepliesHold(db0, w.history)
  }

  // ----- Carts matter to a checkout only when it reads one -------------------------------------

  predicate SameButCarts(a: Shop, b: Shop) {
    a == b.(carts := a.carts)
  }

  lemma CartsUnread(a: Shop, b: Shop, t: Txn)
    requires SameButCarts(a, b)
    ensures Ending(a, t) == Ending(b, t)
    ensures Wanted(a, t) == Wanted(b, t)
    ensures t.phase != ReadingCart || SameCart(a, b, t.req.user) ==> Stepped(a, t) == Stepped(b, t)
  {
  }

  lemma WrittenCarts(a: Shop, b: Shop, t: Txn)
    requires SameButCarts(a, b) && t.order.Some? && |t.counters| == |Products(a, t)|
    ensures SameButCarts(Written(a, t), Written(b, t))
    ensures Written(a, t).carts == a.carts[t.req.user := []]
    ensures Written(a, t).stock.Keys == a.stock.Keys
  {
  }

  // ----- Edits -------------------------------------------------------------------------------

  lemma EditedLocal(a: Shop, b: Shop, u: nat, e: Edit)
    requires SameCart(a, b, u) && a.stock.Keys == b.stock.Keys
    ensures SameCart(Edited(a, u, e), Edited(b, u, e), u)
    ensures Edited(a, u, e).stock == a.stock
  {
  }

  lemma EditedShape(db: Shop, u: nat, e: Edit)
    ensures SameButCarts(Edited(db, u, e), db)
    ensures forall v | v != u :: SameCart(Edited(db, u, e), db, v)
  {
  }

  lemma {:induction false} EditedAllShape(db: Shop, u: nat, es: seq<Edit>)
    ensures SameButCarts(EditedAll(db, u, es), db)
    ensures forall v | v != u :: SameCart(EditedAll(db, u, es), db, v)
  {
    if es != [] {
      var before := EditedAll(db, u, es[..|es| - 1]);
      EditedAllShape(db, u, es[..|es| - 1]);
      EditedShape(before, u, es[|es| - 1]);
      forall v | v != u
        ensures SameCart(EditedAll(db, u, es), db, v)
      {
        assert SameCart(before, db, v) && SameCart(Edited(before, u, es[|es| - 1]), before, v);
      }
    }
  }

  lemma {:induction false} EditedAllLocal(a: Shop, b: Shop, u: nat, es: seq<Edit>)
    requires SameCart(a, b, u) && a.stock.Keys == b.stock.Keys
    ensures SameCart(EditedAll(a, u, es), EditedAll(b, u, es), u)
  {
    if es != [] {
      var front := es[..|es| - 1];
      EditedAllLocal(a, b, u, front);
      EditedAllShape(a, u, front);
      EditedAllShape(b, u, front);
      EditedLocal(EditedAll(a, u, front), EditedAll(b, u, front), u, es[|es| - 1]);
    }
  }

  lemma EditedAllSnoc(db: Shop, u: nat, es: seq<Edit>, e: Edit)
    ensures EditedAll(db, u, es + [e]) == Edited(EditedAll(db, u, es), u, e)
  {
    assert (es + [e])[..|es|] == es;
  }

  lemma EditKeepsKey(db: Shop, u: nat, e: Edit)
    requires Keyed(db)
    ensures Keyed(Edited(db, u, e))
  {
    var cart := CartOf(db, u);
    match e {
      case Put(variant, qty) => SetLineUnique(cart, variant, qty);
      case Take(variant) => DropLineUnique(cart, variant);
    }
  }

  lemma CurrentIgnoresCarts(a: Shop, b: Shop, t: Txn)
    requires SameButCarts(a, b) && Current(b, t)
    requires HasCart(t) ==> SameCart(a, b, t.req.user)
    ensures Current(a, t)
  {
    if HasCart(t) {
      ReadIgnoresCarts(a, b, t.req);
    }
  }

  lemma ReadIgnoresCarts(a: Shop, b: Shop, req: Request)
    requires SameButCarts(a, b) && SameCart(a, b, req.user)
    ensures Read(a, req) == Read(b, req) && CartOf(a, req.user) == CartOf(b, req.user)
    ensures CartPromo(a, req.user) == CartPromo(b, req.user)
  {
    var cart := ByVariant(CartOf(a, req.user));
    assert ReadLines(a, cart, req.currency) == ReadLines(b, cart, req.currency);
  }

  /** An edit of a cart that no open checkout has read disturbs none of them. */
  lemma EditKeepsLocks(s: Sys, u: nat, e: Edit)
    requires LocksSound(s) && !OpenCart(s, u)
    ensures LocksSound(s.(db := Edited(s.db, u, e)))
  {
    var db := Edited(s.db, u, e);
    EditKeepsKey(s.db, u, e);
    EditedShape(s.db, u, e);
    forall id | id in s.txns
      ensures Current(db, s.txns[id])
    {
      CurrentIgnoresCarts(db, s.db, s.txns[id]);
    }
    forall id, r | id in s.txns
      ensures Holds(s.txns[id], db, r) <==> Holds(s.txns[id], s.db, r)
    {
      HoldsIgnoresCommits(s.db, db, s.txns[id], r);
    }
  }

  // ----- An edit, noted ------------------------------------------------------------------------

  lemma RepliesSnoc(db: Shop, history: seq<Deed>, d: Deed)
    requires RepliesHold(db, history)
    requires Holding(Replay(db, history), d)
    ensures RepliesHold(db, history + [d])
  {
    var longer := history + [d];
    assert longer[..|history|] == history;
    forall k | 0 <= k < |longer|
      ensures Holding(Replay(db, longer[..k]), longer[k])
    {
      if k < |history| {
        assert longer[..k] == history[..k];
      }
    }
  }

  lemma ReplaySnoc(db: Shop, history: seq<Deed>, d: Deed)
    ensures Replay(db, history + [d]) == AfterDeed(Replay(db, history), d)
  {
    assert (history + [d])[..|history|] == history;
  }

  /** What keeps a customer's cart explained from one world to the next: nothing of theirs has moved. */
  ghost predicate Rests(w: World, w': World, u: nat) {
    && u in w.pending && u in w'.pending && w'.pending[u] == w.pending[u]
    && SameCart(w.sys.db, EditedAll(Shadow(w), u, w.pending[u]), u)
    && SameCart(w'.sys.db, w.sys.db, u) && SameCart(Shadow(w'), Shadow(w), u)
    && Shadow(w').stock.Keys == Shadow(w).stock.Keys
  }

  lemma PendingSurvives(w: World, w': World, u: nat)
    requires Rests(w, w', u)
    ensures SameCart(w'.sys.db, EditedAll(Shadow(w'), u, w'.pending[u]), u)
  {
    EditedAllLocal(Shadow(w'), Shadow(w), u, w.pending[u]);
  }

  lemma PendingChangeKeeps(w: World, db0: Shop, user: nat, edit: Edit)
    requires WorldInv(w, db0) && user in w.pending && !Waits(w.sys, user, edit)
    ensures WorldInv(NoteChange(w, user, edit), db0)
  {
    var w' := NoteChange(w, user, edit);
    PendingChangeShadow(w, user, edit);
    forall u
      ensures u in w'.pending <==> OpenCart(w'.sys, u)
    {
      SameOpenCarts(w'.sys, w.sys, u);
    }
    forall u | u in w'.pending
      ensures SameCart(w'.sys.db, EditedAll(Shadow(w'), u, w'.pending[u]), u)
    {
      PendingChangeExplained(w, user, edit, u);
    }
  }

  lemma PendingChangeShadow(w: World, user: nat, edit: Edit)
    requires user in w.pending && w.seen.Keys <= w.pending.Keys && !Waits(w.sys, user, edit)
    ensures Shadow(NoteChange(w, user, edit)) == Shadow(w)
    ensures ShadowSys(NoteChange(w, user, edit)) == ShadowSys(w)
  {
    EditedShape(w.sys.db, user, edit);
    MaskedHides(w.sys.db, Edited(w.sys.db, user, edit), w.pending.Keys, w.seen, user);
    assert NoteChange(w, user, edit).pending.Keys == w.pending.Keys;
  }

  lemma PendingChangeExplained(w: World, user: nat, edit: Edit, u: nat)
    requires user in w.pending && w.seen.Keys <= w.pending.Keys && u in w.pending && PendingExplains(w)
    requires !Waits(w.sys, user, edit)
    ensures
      var w' := NoteChange(w, user, edit);
      SameCart(w'.sys.db, EditedAll(Shadow(w'), u, w'.pending[u]), u)
  {
    PendingChangeShadow(w, user, edit);
    EditedShape(w.sys.db, user, edit);
    if u == user {
      EditedAllSnoc(Shadow(w), u, w.pending[u], edit);
      EditedAllShape(Shadow(w), u, w.pending[u]);
      EditedLocal(w.sys.db, EditedAll(Shadow(w), u, w.pending[u]), u, edit);
    }
  }

  lemma CountingChangeShadow(w: World, user: nat, edit: Edit)
    requires user !in w.pending && w.seen.Keys <= w.pending.Keys && !Waits(w.sys, user, edit)
    ensures Shadow(NoteChange(w, user, edit)) == Edited(Shadow(w), user, edit)
  {
    var db', changed := Edited(w.sys.db, user, edit), Edited(Shadow(w), user, edit);
    EditedShape(w.sys.db, user, edit);
    EditedShape(Shadow(w), user, edit);
    MaskedAt(w.sys.db, w.pending.Keys, w.seen, user);
    EditedLocal(Shadow(w), w.sys.db, user, edit);
    MaskedShows(w.sys.db, db', w.pending.Keys, w.seen, user, changed);
  }

  lemma CountingChangeKeeps(w: World, db0: Shop, user: nat, edit: Edit)
    requires WorldInv(w, db0) && user !in w.pending && !Waits(w.sys, user, edit)
    ensures WorldInv(NoteChange(w, user, edit), db0)
  {
    var w' := NoteChange(w, user, edit);
    CountingChangeShadow(w, user, edit);
    assert OpenCart(ShadowSys(w), user) <==> OpenCart(w.sys, user);
    EditKeepsLocks(ShadowSys(w), user, edit);
    assert ShadowSys(w') == ShadowSys(w).(db := Edited(Shadow(w), user, edit));
    EditedShape(w.sys.db, user, edit);
    EditedShape(Shadow(w), user, edit);
    forall u | u in w'.pending
      ensures SameCart(w'.sys.db, EditedAll(Shadow(w'), u, w'.pending[u]), u)
    {
      PendingSurvives(w, w', u);
    }
    ReplaySnoc(db0, w.history, Changed(user, edit));
    RepliesSnoc(db0, w.history, Changed(user, edit));
    assert forall u :: OpenCart(w'.sys, u) <==> OpenCart(w.sys, u);
  }

  // ----- A step of a checkout, noted ---------------------------------------------------------------

  /** Two open checkouts are never the same customer's. */
  lemma OneOpenEach(s: Sys, a: nat, b: nat)
    requires OwnersSound(s.db, s.txns, s.owner) && a in s.txns && b in s.txns
    requires Active(s.txns[a]) && Active(s.txns[b]) && s.txns[a].req.user == s.txns[b].req.user
    ensures a == b
  {
    HolderOwns(s.db, s.txns, s.owner, a, UserRow(s.txns[a].req.user));
    HolderOwns(s.db, s.txns, s.owner, b, UserRow(s.txns[a].req.user));
  }

  lemma ShadowDiffersInCarts(w: World)
    ensures SameButCarts(w.sys.db, Shadow(w))
    ensures forall u | u !in w.pending && w.seen.Keys <= w.pending.Keys :: SameCart(w.sys.db, Shadow(w), u)
  {
  }

  lemma SameChances(w: World, id: nat)
    ensures CanStep(w.sys, id) <==> CanStep(ShadowSys(w), id)
    ensures id in w.sys.txns ==> Ending(w.sys.db, w.sys.txns[id]) == Ending(Shadow(w), w.sys.txns[id])
  {
    ShadowDiffersInCarts(w);
    if id in w.sys.txns {
      CartsUnread(w.sys.db, Shadow(w), w.sys.txns[id]);
    }
  }

  lemma GrantedOpenCarts(s: Sys, id: nat, u: nat)
    requires CanStep(s, id) && Ending(s.db, s.txns[id]).None? && Stepped(s.db, s.txns[id]).req == s.txns[id].req
    ensures OpenCart(Grant(s, id), u) <==>
              OpenCart(s, u) || (s.txns[id].phase == ReadingCart && s.txns[id].req.user == u)
  {
    var s', t := Grant(s, id), s.txns[id];
    assert HasCart(Stepped(s.db, t)) <==> HasCart(t) || t.phase == ReadingCart;
    if other :| other in s.txns && HasCart(s.txns[other]) && s.txns[other].req.user == u {
      assert HasCart(s'.txns[other]) && s'.txns[other].req.user == u;
    }
    if t.phase == ReadingCart && t.req.user == u {
      assert HasCart(s'.txns[id]) && s'.txns[id].req.user == u;
    }
  }

  /** A step that ends nothing and reads no cart leaves the tables alone. */
  lemma QuietTurnKeeps(w: World, db0: Shop, id: nat)
    requires WorldInv(w, db0) && CanStep(w.sys, id)
    requires Ending(w.sys.db, w.sys.txns[id]).None? && w.sys.txns[id].phase != ReadingCart
    ensures WorldInv(NoteTurn(w, id), db0)
  {
    var w', t := NoteTurn(w, id), w.sys.txns[id];
    SameChances(w, id);
    ShadowDiffersInCarts(w);
    CartsUnread(w.sys.db, Shadow(w), t);
    GrantKeepsLocks(ShadowSys(w), id);
    assert ShadowSys(w') == Grant(ShadowSys(w), id);
    forall u
      ensures u in w'.pending <==> OpenCart(w'.sys, u)
    {
      GrantedOpenCarts(w.sys, id, u);
    }
  }

  lemma NotReadTwice(w: World, db0: Shop, id: nat)
    requires WorldInv(w, db0) && id in w.sys.txns && w.sys.txns[id].phase == ReadingCart
    ensures w.sys.txns[id].req.user !in w.pending
  {
    var u := w.sys.txns[id].req.user;
    if u in w.pending {
      var other :| other in w.sys.txns && HasCart(w.sys.txns[other]) && w.sys.txns[other].req.user == u;
      OneOpenEach(ShadowSys(w), id, other);
    }
  }

  lemma ReadingShadow(w: World, id: nat)
    requires CanStep(w.sys, id) && Ending(w.sys.db, w.sys.txns[id]).None? && w.sys.txns[id].phase == ReadingCart
    requires w.seen.Keys <= w.pending.Keys && w.sys.txns[id].req.user !in w.pending
    ensures Shadow(NoteTurn(w, id)) == Shadow(w) && NoteTurn(w, id).seen.Keys <= NoteTurn(w, id).pending.Keys
  {
    var u := w.sys.txns[id].req.user;
    MaskedRead(w.sys.db, w.pending.Keys, w.seen, u);
    assert NoteTurn(w, id).pending.Keys == w.pending.Keys + {u};
  }

  /** With no edit since, the cart that was read is the real one. */
  lemma ReadingExplains(w: World, id: nat)
    requires CanStep(w.sys, id) && Ending(w.sys.db, w.sys.txns[id]).None? && w.sys.txns[id].phase == ReadingCart
    requires w.seen.Keys <= w.pending.Keys && w.sys.txns[id].req.user !in w.pending && PendingExplains(w)
    ensures PendingExplains(NoteTurn(w, id))
  {
    var w', user := NoteTurn(w, id), w.sys.txns[id].req.user;
    ReadingShadow(w, id);
    MaskedAt(w.sys.db, w.pending.Keys, w.seen, user);
    forall u | u in w'.pending
      ensures SameCart(w'.sys.db, EditedAll(Shadow(w'), u, w'.pending[u]), u)
    {
      assert u != user ==> u in w.pending && w'.pending[u] == w.pending[u];
    }
  }

  lemma ReadingTurnKeeps(w: World, db0: Shop, id: nat)
    requires WorldInv(w, db0) && CanStep(w.sys, id)
    requires Ending(w.sys.db, w.sys.txns[id]).None? && w.sys.txns[id].phase == ReadingCart
    ensures WorldInv(NoteTurn(w, id), db0)
  {
    var w', t := NoteTurn(w, id), w.sys.txns[id];
    NotReadTwice(w, db0, id);
    ReadingShadow(w, id);
    ReadingExplains(w, id);
    SameChances(w, id);
    ShadowDiffersInCarts(w);
    CartsUnread(w.sys.db, Shadow(w), t);
    GrantKeepsLocks(ShadowSys(w), id);
    assert ShadowSys(w') == Grant(ShadowSys(w), id);
    forall u
      ensures u in w'.pending <==> OpenCart(w'.sys, u)
    {
      GrantedOpenCarts(w.sys, id, u);
    }
  }

  // ----- The end of a checkout, noted ----------------------------------------------------------------

  lemma EndsWithCart(db: Shop, t: Txn)
    requires Ending(db, t).Some?
    ensures HasCart(t) && Active(t)
  {
  }

  lemma FinishedOpenCarts(s: Sys, id: nat, reply: Reply, u: nat)
    requires OwnersSound(s.db, s.txns, s.owner) && id in s.txns && HasCart(s.txns[id])
    ensures OpenCart(Finish(s, id, reply), u) <==> OpenCart(s, u) && u != s.txns[id].req.user
  {
    var s' := Finish(s, id, reply);
    if other :| other in s'.txns && HasCart(s'.txns[other]) && s'.txns[other].req.user == u {
      assert other != id && s.txns[other] == s'.txns[other];
      if u == s.txns[id].req.user {
        OneOpenEach(s, id, other);
      }
    }
    if other :| other in s.txns && HasCart(s.txns[other]) && s.txns[other].req.user == u && u != s.txns[id].req.user {
      assert s'.txns[other] == s.txns[other];
    }
  }

  lemma OneMoreChange(db0: Shop, history: seq<Deed>, u: nat, e: Edit)
    requires RepliesHold(db0, history)
    ensures Replay(db0, history + [Changed(u, e)]) == Edited(Replay(db0, history), u, e)
    ensures RepliesHold(db0, history + [Changed(u, e)])
  {
    ReplaySnoc(db0, history, Changed(u, e));
    RepliesSnoc(db0, history, Changed(u, e));
  }

  lemma {:induction false} ReplayChanges(db0: Shop, history: seq<Deed>, u: nat, es: seq<Edit>)
    requires RepliesHold(db0, history)
    ensures Replay(db0, history + Changes(u, es)) == EditedAll(Replay(db0, history), u, es)
    ensures RepliesHold(db0, history + Changes(u, es))
  {
    if es == [] {
      assert history + Changes(u, es) == history;
    } else {
      var front, last := es[..|es| - 1], es[|es| - 1];
      ReplayChanges(db0, history, u, front);
      OneMoreChange(db0, history + Changes(u, front), u, last);
      ChangesSnoc(history, u, es);
    }
  }

  lemma ChangesSnoc(history: seq<Deed>, u: nat, es: seq<Edit>)
    requires es != []
    ensures history + Changes(u, es) == history + Changes(u, es[..|es| - 1]) + [Changed(u, es[|es| - 1])]
  {
  }

  lemma PlacedItems(db: Shop, t: Txn)
    requires Keyed(db) && Current(db, t) && Ending(db, t).Some? && Ending(db, t).value.Placed?
    ensures t.order.Some? && t.phase == LockingProducts && |t.counters| == |Products(db, t)|
    ensures t.order.value.items == ItemsOf(Read(db, t.req).lines)
  {
    Ledger.DecidedOrder(ReadSeeing(db, t.req, t.saw), t.req, t.order.value);
  }

  /** What a turn that ends a checkout needs of the world. */
  ghost predicate Ends(w: World, db0: Shop, id: nat, reply: Reply) {
    WorldInv(w, db0) && CanStep(w.sys, id) && Ending(w.sys.db, w.sys.txns[id]) == Some(reply)
  }

  lemma EndHistory(w: World, db0: Shop, id: nat, reply: Reply)
    requires Ends(w, db0, id, reply)
    ensures w.sys.txns[id].req.user in w.pending
    ensures
      var t := w.sys.txns[id];
      var ran := w.history + [Ran(t.req, t.saw, reply)];
      && RepliesHold(db0, ran)
      && Replay(db0, ran) == if reply.Placed? then Written(Shadow(w), t) else Shadow(w)
  {
    var t := w.sys.txns[id];
    SameChances(w, id);
    EndsWithCart(w.sys.db, t);
    assert OpenCart(w.sys, t.req.user);
    EndingIsSerial(Shadow(w), t);
    ReplaySnoc(db0, w.history, Ran(t.req, t.saw, reply));
    RepliesSnoc(db0, w.history, Ran(t.req, t.saw, reply));
  }

  lemma PlacedShadow(w: World, db0: Shop, id: nat, reply: Reply)
    requires Ends(w, db0, id, reply) && reply.Placed?
    ensures Shadow(NoteTurn(w, id)) == Written(Shadow(w), w.sys.txns[id])
    ensures NoteTurn(w, id).sys.db == Written(w.sys.db, w.sys.txns[id])
  {
    var t := w.sys.txns[id];
    var u, db' := t.req.user, Written(w.sys.db, t);
    PlacedWrites(w, db0, id, reply);
    forall v | v != u
      ensures SameCart(Written(Shadow(w), t), Masked(db', w.pending.Keys, w.seen), v)
    {
      MaskedAt(w.sys.db, w.pending.Keys, w.seen, v);
      MaskedAt(db', w.pending.Keys, w.seen, v);
    }
    MaskOff(db', w.pending.Keys, w.seen, u, Written(Shadow(w), t));
  }

  lemma PlacedWrites(w: World, db0: Shop, id: nat, reply: Reply)
    requires Ends(w, db0, id, reply) && reply.Placed?
    ensures
      var t := w.sys.txns[id];
      && NoteTurn(w, id).sys.db == Written(w.sys.db, t)
      && SameButCarts(Written(w.sys.db, t), Written(Shadow(w), t))
      && Written(w.sys.db, t).carts == w.sys.db.carts[t.req.user := []]
      && Written(Shadow(w), t).carts == Shadow(w).carts[t.req.user := []]
      && Written(Shadow(w), t).stock.Keys == Shadow(w).stock.Keys
  {
    var t := w.sys.txns[id];
    ShadowDiffersInCarts(w);
    SameChances(w, id);
    PlacedItems(Shadow(w), t);
    WrittenCarts(w.sys.db, Shadow(w), t);
    WrittenCarts(Shadow(w), w.sys.db, t);
  }

  lemma RefusedShadow(w: World, db0: Shop, id: nat, reply: Reply)
    requires Ends(w, db0, id, reply) && !reply.Placed? && w.sys.txns[id].req.user in w.pending
    ensures
      var u := w.sys.txns[id].req.user;
      Shadow(NoteTurn(w, id)) == EditedAll(Shadow(w), u, w.pending[u])
  {
    var u := w.sys.txns[id].req.user;
    EditedAllShape(Shadow(w), u, w.pending[u]);
    assert SameCart(w.sys.db, EditedAll(Shadow(w), u, w.pending[u]), u);
    MaskOff(w.sys.db, w.pending.Keys, w.seen, u, EditedAll(Shadow(w), u, w.pending[u]));
  }

  lemma EndReplay(w: World, db0: Shop, id: nat, reply: Reply)
    requires Ends(w, db0, id, reply)
    ensures Shadow(NoteTurn(w, id)) == Replay(db0, NoteTurn(w, id).history)
    ensures RepliesHold(db0, NoteTurn(w, id).history)
  {
    var t := w.sys.txns[id];
    var u, ran := t.req.user, w.history + [Ran(t.req, t.saw, reply)];
    EndHistory(w, db0, id, reply);
    if reply.Placed? {
      PlacedShadow(w, db0, id, reply);
      assert NoteTurn(w, id).history == ran + [] == ran;
    } else {
      RefusedShadow(w, db0, id, reply);
      ReplayChanges(db0, ran, u, w.pending[u]);
    }
  }

  /** The locks of the shadow system after a checkout's end: a finish, and the edits that now count. */
  lemma EndKeepsLocks(w: World, db0: Shop, id: nat, reply: Reply)
    requires Ends(w, db0, id, reply)
    ensures LocksSound(ShadowSys(NoteTurn(w, id)))
  {
    var t, w' := w.sys.txns[id], NoteTurn(w, id);
    SameChances(w, id);
    EndsWithCart(w.sys.db, t);
    FinishKeepsLocks(ShadowSys(w), id);
    var s := Finish(ShadowSys(w), id, reply);
    EndHistory(w, db0, id, reply);
    if reply.Placed? {
      PlacedShadow(w, db0, id, reply);
      LocksIgnoreLog(s, ShadowSys(w'));
    } else {
      FinishedOpenCarts(ShadowSys(w), id, reply, t.req.user);
      EditsKeepLocks(s, t.req.user, w.pending[t.req.user]);
      RefusedShadow(w, db0, id, reply);
      LocksIgnoreLog(s.(db := Shadow(w')), ShadowSys(w'));
    }
  }

  lemma LocksIgnoreLog(a: Sys, b: Sys)
    requires LocksSound(a) && b == a.(log := b.log)
    ensures LocksSound(b)
  {
  }

  lemma {:induction false} EditsKeepLocks(s: Sys, u: nat, es: seq<Edit>)
    requires LocksSound(s) && !OpenCart(s, u)
    ensures LocksSound(s.(db := EditedAll(s.db, u, es)))
  {
    if es == [] {
      assert s.(db := EditedAll(s.db, u, es)) == s;
    } else {
      var front := es[..|es| - 1];
      EditsKeepLocks(s, u, front);
      var s' := s.(db := EditedAll(s.db, u, front));
      assert OpenCart(s', u) <==> OpenCart(s, u);
      EditKeepsLocks(s', u, es[|es| - 1]);
    }
  }

  lemma PlacedPending(w: World, db0: Shop, id: nat, reply: Reply, u: nat)
    requires Ends(w, db0, id, reply) && reply.Placed? && u in w.pending && u != w.sys.txns[id].req.user
    ensures Rests(w, NoteTurn(w, id), u)
  {
    PlacedWrites(w, db0, id, reply);
    PlacedShadow(w, db0, id, reply);
  }

  lemma RefusedTables(w: World, id: nat, reply: Reply)
    requires CanStep(w.sys, id) && Ending(w.sys.db, w.sys.txns[id]) == Some(reply) && !reply.Placed?
    ensures NoteTurn(w, id).sys.db == w.sys.db
    ensures NoteTurn(w, id).pending == w.pending - {w.sys.txns[id].req.user}
  {
  }

  lemma EditedElsewhere(db: Shop, db': Shop, user: nat, es: seq<Edit>, u: nat)
    requires db' == EditedAll(db, user, es) && u != user
    ensures SameCart(db', db, u) && db'.stock.Keys == db.stock.Keys
  {
    EditedAllShape(db, user, es);
  }

  lemma StillRests(w: World, w': World, user: nat, u: nat)
    requires PendingExplains(w) && u in w.pending && u != user && user in w.pending
    requires w'.sys.db == w.sys.db && w'.pending == w.pending - {user}
    requires Shadow(w') == EditedAll(Shadow(w), user, w.pending[user])
    ensures Rests(w, w', u)
  {
    EditedElsewhere(Shadow(w), Shadow(w'), user, w.pending[user], u);
  }

  lemma RefusedPending(w: World, db0: Shop, id: nat, reply: Reply, u: nat)
    requires Ends(w, db0, id, reply) && !reply.Placed? && u in w.pending && u != w.sys.txns[id].req.user
    requires w.sys.txns[id].req.user in w.pending
    ensures Rests(w, NoteTurn(w, id), u)
  {
    RefusedShadow(w, db0, id, reply);
    RefusedTables(w, id, reply);
    StillRests(w, NoteTurn(w, id), w.sys.txns[id].req.user, u);
  }

  lemma EndRests(w: World, db0: Shop, id: nat, reply: Reply, u: nat)
    requires Ends(w, db0, id, reply) && u in w.pending && u != w.sys.txns[id].req.user
    ensures Rests(w, NoteTurn(w, id), u)
  {
    EndHistory(w, db0, id, reply);
    if reply.Placed? {
      PlacedPending(w, db0, id, reply, u);
    } else {
      RefusedPending(w, db0, id, reply, u);
    }
  }

  lemma EndExplains(w: World, db0: Shop, id: nat, reply: Reply)
    requires Ends(w, db0, id, reply)
    ensures PendingExplains(NoteTurn(w, id))
  {
    var w' := NoteTurn(w, id);
    forall u | u in w'.pending
      ensures SameCart(w'.sys.db, EditedAll(Shadow(w'), u, w'.pending[u]), u)
    {
      EndRests(w, db0, id, reply, u);
      PendingSurvives(w, w', u);
    }
  }

  lemma EndKeys(w: World, db0: Shop, id: nat, reply: Reply)
    requires Ends(w, db0, id, reply)
    ensures NoteTurn(w, id).pending.Keys == w.pending.Keys - {w.sys.txns[id].req.user}
    ensures NoteTurn(w, id).seen.Keys <= NoteTurn(w, id).pending.Keys
  {
  }

  lemma EndOpens(w: World, db0: Shop, id: nat, reply: Reply)
    requires Ends(w, db0, id, reply)
    ensures forall u :: u in NoteTurn(w, id).pending <==> OpenCart(NoteTurn(w, id).sys, u)
  {
    EndKeys(w, db0, id, reply);
    forall u
      ensures u in NoteTurn(w, id).pending <==> OpenCart(NoteTurn(w, id).sys, u)
    {
      OpenCartsAfterEnd(w, db0, id, reply, u);
    }
  }

  lemma EndTurnKeeps(w: World, db0: Shop, id: nat, reply: Reply)
    requires Ends(w, db0, id, reply)
    ensures WorldInv(NoteTurn(w, id), db0)
  {
    EndReplay(w, db0, id, reply);
    EndKeepsLocks(w, db0, id, reply);
    EndKeys(w, db0, id, reply);
    EndOpens(w, db0, id, reply);
    EndExplains(w, db0, id, reply);
  }

  lemma OpenCartsAfterEnd(w: World, db0: Shop, id: nat, reply: Reply, u: nat)
    requires Ends(w, db0, id, reply)
    ensures OpenCart(NoteTurn(w, id).sys, u) <==> OpenCart(w.sys, u) && u != w.sys.txns[id].req.user
  {
    EndsWithCart(w.sys.db, w.sys.txns[id]);
    FinishedOpenCarts(ShadowSys(w), id, reply, u);
    SameOpenCarts(Finish(ShadowSys(w), id, reply), NoteTurn(w, id).sys, u);
    SameOpenCarts(ShadowSys(w), w.sys, u);
  }

  lemma SameOpenCarts(a: Sys, b: Sys, u: nat)
    requires a.txns == b.txns
    ensures OpenCart(a, u) <==> OpenCart(b, u)
  {
  }

  // ----- Every interleaving ----------------------------------------------------------------------

  lemma NoteKeeps(w: World, db0: Shop, e: Event)
    requires WorldInv(w, db0)
    ensures WorldInv(Note(w, e), db0)
  {
    match e {
      case Turn(id) =>
        if CanStep(w.sys, id) {
          var end := Ending(w.sys.db, w.sys.txns[id]);
          if end.Some? {
            EndTurnKeeps(w, db0, id, end.value);
          } else if w.sys.txns[id].phase == ReadingCart {
            ReadingTurnKeeps(w, db0, id);
          } else {
            QuietTurnKeeps(w, db0, id);
          }
        }
      case Change(user, edit) =>
        if Waits(w.sys, user, edit) {
        } else if user in w.pending {
          PendingChangeKeeps(w, db0, user, edit);
        } else {
          CountingChangeKeeps(w, db0, user, edit);
        }
    }
  }

  lemma BeginWorld(db: Shop, reqs: map<nat, Request>)
    requires Keyed(db)
    ensures WorldInv(World(Begin(db, reqs), map[], map[], []), db)
  {
    var w := World(Begin(db, reqs), map[], map[], []);
    assert Shadow(w).carts == db.carts;
    assert ShadowSys(w) == Begin(db, reqs);
    BeginInv(db, reqs);
  }

  lemma {:induction false} NoteAllInv(db: Shop, reqs: map<nat, Request>, events: seq<Event>)
    requires Keyed(db)
    ensures WorldInv(NoteAll(db, reqs, events), db)
  {
    if events == [] {
      BeginWorld(db, reqs);
    } else {
      var before := events[..|events| - 1];
      NoteAllInv(db, reqs, before);
      NoteKeeps(NoteAll(db, reqs, before), db, events[|events| - 1]);
    }
  }

  ghost predicate NoneOpen(s: Sys) {
    forall id | id in s.txns :: !HasCart(s.txns[id])
  }

  /**
   * Serialisability with cart edits. Whenever no checkout is between its look at the cart and its end, the
   * tables are those of the noted deeds one after another, and every checkout got the reply it gets there.
   */
  lemma EditedSerialisable(db: Shop, reqs: map<nat, Request>, events: seq<Event>)
    requires Keyed(db)
    ensures
      var w := NoteAll(db, reqs, events);
      && w.sys == HappenAll(Begin(db, reqs), events)
      && RepliesHold(db, w.history)
      && (NoneOpen(w.sys) ==> w.sys.db == Replay(db, w.history))
  {
    var w := NoteAll(db, reqs, events);
    NotingChangesNothing(db, reqs, events);
    NoteAllInv(db, reqs, events);
    if NoneOpen(w.sys) {
      assert forall u :: u !in w.pending;
      assert w.sys.db.carts == Shadow(w).carts;
      assert w.sys.db == Shadow(w);
    }
  }
}
