/**
 * Promo caps under racing checkouts. The redemptions of a code are counted in
 * the very query that waits for the code's lock, so the count is as old as the
 * wait (backend/internal/store/orders.go, promos.go).
 *
 * A checkout is misled when it counted one to spare and by now there is none.
 * The interleaving is serial if and only if nobody is misled, a cap is kept if
 * and only if nobody misled places an order, and two customers are enough to
 * exceed one.
 */
module CapRace {
  import opened Wrappers
  import opened Money
  import opened Pricing
  import opened Lifecycle
  import opened Transactions
  import Ledger
  import History
  import opened Concurrency
  import FlashSale
  import Deadlock
  import opened OneLine

  // ----- What an old count changes ----------------------------------------------------

  /** Alone it would be told that the code is used up, but it had counted one to spare. */
  predicate Misled(db: Shop, req: Request, saw: nat) {
    && CreateOrder(db, req).reply == Refused(PromoInvalid(Exhausted))
    && CartPromo(db, req.user).Some?
    && CartPromo(db, req.user).value.maxRedemptions.Some?
    && saw < CartPromo(db, req.user).value.maxRedemptions.value
  }

  /** The code's verdict changes with an older count exactly when it was used up in between. */
  lemma CountMatters(p: Promo, saw: nat, now: int, currency: Currency, subtotal: int)
    requires saw <= p.redemptions
    ensures
      var seen := IssueOf(p.(redemptions := saw), now, currency, subtotal);
      var issue := IssueOf(p, now, currency, subtotal);
      seen == issue <==> !(issue == Exhausted && saw < p.maxRedemptions.value)
  {
  }

  lemma SameDiscounts(i: PriceInput, i': PriceInput)
    requires i.promo.Some? && i'.promo.Some? && i' == i.(promo := i'.promo)
    requires i'.promo.value == i.promo.value.(redemptions := i'.promo.value.redemptions)
    requires IssueOf(i'.promo.value, i.now, i.currency, i.subtotal) == IssueOf(i.promo.value, i.now, i.currency, i.subtotal)
    ensures PromoFace(i') == PromoFace(i) && MemberDiscount(i') == MemberDiscount(i)
    ensures PromoDiscount(i') == PromoDiscount(i) && BaseCharged(i') == BaseCharged(i)
  {
  }

  /** A price depends on the count only through the verdict on the code. */
  lemma SamePrice(i: PriceInput, saw: nat)
    requires i.promo.Some?
    requires
      var seen := i.promo.value.(redemptions := saw);
      IssueOf(seen, i.now, i.currency, i.subtotal) == IssueOf(i.promo.value, i.now, i.currency, i.subtotal)
    ensures Quote(i.(promo := Some(i.promo.value.(redemptions := saw)))) == Quote(i)
  {
    var i' := i.(promo := Some(i.promo.value.(redemptions := saw)));
    SameDiscounts(i, i');
  }

  /** Two views that differ in the count alone are judged alike when the code's verdict is the same. */
  lemma SameVerdict(v: View, saw: nat, req: Request)
    requires v.promo.Some?
    requires
      var p, sub := v.promo.value, Subtotal(v.lines);
      IssueOf(p.(redemptions := saw), req.now, req.currency, sub) == IssueOf(p, req.now, req.currency, sub)
    ensures Decide(v.(promo := Some(v.promo.value.(redemptions := saw))), req) == Decide(v, req)
  {
    if v.rate.Some? {
      SamePrice(InputOf(v, v.rate.value, req), saw);
    }
  }

  lemma EarlyKind(v: View, req: Request)
    requires EarlyRefusal(v.lines, v.rate).Some?
    ensures Decide(v, req).Failure? && !Decide(v, req).error.PromoInvalid?
  {
    EarlyRefusalDecides(v, req);
    History.ProblemKind(v.lines);
  }

  lemma LateVerdict(v: View, req: Request)
    requires EarlyRefusal(v.lines, v.rate).None? && v.promo.Some?
    ensures
      var issue := IssueOf(v.promo.value, req.now, req.currency, Subtotal(v.lines));
      if issue == NoIssue then Decide(v, req).Success? else Decide(v, req) == Failure(PromoInvalid(issue))
  {
  }

  /** The verdicts on the facts as they are and as they were seen. */
  lemma VerdictIff(v: View, saw: nat, req: Request)
    requires v.promo.Some? && saw <= v.promo.value.redemptions
    ensures
      var w := v.(promo := Some(v.promo.value.(redemptions := saw)));
      var max := v.promo.value.maxRedemptions;
      var misled := Decide(v, req) == Failure(PromoInvalid(Exhausted)) && max.Some? && saw < max.value;
      if misled then Decide(w, req) != Failure(PromoInvalid(Exhausted)) else Decide(w, req) == Decide(v, req)
  {
    var w, sub := v.(promo := Some(v.promo.value.(redemptions := saw))), Subtotal(v.lines);
    CountMatters(v.promo.value, saw, req.now, req.currency, sub);
    if EarlyRefusal(v.lines, v.rate).Some? {
      EarlyKind(v, req);
      EarlyRefusalDecides(v, req);
      EarlyRefusalDecides(w, req);
    } else {
      LateVerdict(v, req);
      LateVerdict(w, req);
      if IssueOf(w.promo.value, req.now, req.currency, sub) == IssueOf(v.promo.value, req.now, req.currency, sub) {
        SameVerdict(v, saw, req);
      }
    }
  }

  /** A checkout that goes by an earlier count does what it would do alone, unless it is misled. */
  lemma SeeingIff(db: Shop, req: Request, saw: nat)
    requires saw <= Redeemed(db, req.user)
    ensures !Misled(db, req, saw) ==> CreateSeeing(db, req, saw) == CreateOrder(db, req)
    ensures Misled(db, req, saw) ==> CreateSeeing(db, req, saw).reply != CreateOrder(db, req).reply
  {
    var v := Read(db, req);
    if v.promo.Some? {
      VerdictIff(v, saw, req);
      assert ReadSeeing(db, req, saw) == v.(promo := Some(v.promo.value.(redemptions := saw)));
    } else {
      assert ReadSeeing(db, req, saw) == v;
    }
  }

  // ----- Serial if and only if nobody is misled -----------------------------------------

  /** The same requests one after another, each reading for itself. */
  function Alone(db: Shop, log: seq<Entry>): Shop {
    if log == [] then db else CreateOrder(Alone(db, log[..|log| - 1]), log[|log| - 1].req).shop
  }

  ghost predicate RepliesAlone(db: Shop, log: seq<Entry>) {
    log == [] ||
    var front, last := log[..|log| - 1], log[|log| - 1];
    RepliesAlone(db, front) && CreateOrder(Alone(db, front), last.req).reply == last.reply
  }

  ghost predicate NobodyMisled(db: Shop, log: seq<Entry>) {
    log == [] ||
    var front, last := log[..|log| - 1], log[|log| - 1];
    NobodyMisled(db, front) && !Misled(Serial(db, front), last.req, last.saw)
  }

  lemma {:induction false} AloneIff(db: Shop, log: seq<Entry>)
    requires FlashSale.RepliesSerial(db, log)
    ensures RepliesAlone(db, log) <==> NobodyMisled(db, log)
    ensures NobodyMisled(db, log) ==> Alone(db, log) == Serial(db, log)
  {
    if log != [] {
      var front, last := log[..|log| - 1], log[|log| - 1];
      FlashSale.RepliesPrefix(db, log);
      AloneIff(db, front);
      SeeingIff(Serial(db, front), last.req, last.saw);
    }
  }

  /**
   * After any interleaving the finished checkouts did what they would have done one
   * after another, each reading for itself, if and only if none of them was misled.
   */
  lemma SerialIff(db: Shop, reqs: map<nat, Request>, schedule: seq<nat>)
    requires Keyed(db)
    ensures
      var s := Execute(Begin(db, reqs), schedule);
      && (RepliesAlone(db, s.log) <==> NobodyMisled(db, s.log))
      && (NobodyMisled(db, s.log) ==> s.db == Alone(db, s.log))
  {
    Serialisable(db, reqs, schedule);
    AloneIff(db, Execute(Begin(db, reqs), schedule).log);
  }

  // ----- Caps -------------------------------------------------------------------------------

  /** It places an order with the code after the last redemption the cap allows. */
  predicate Oversteps(db: Shop, req: Request, saw: nat, code: nat) {
    && CreateSeeing(db, req, saw).reply.Placed?
    && CarriesCode(db, req.user, code)
    && Misled(db, req, saw)
  }

  predicate CarriesCode(db: Shop, user: nat, code: nat) {
    code in db.promos && user in db.cartPromo && db.cartPromo[user] == code
  }

  lemma RowRedeems(rows: map<nat, Redemption>, id: nat, r: Redemption, code: nat)
    requires id !in rows
    ensures |RedemptionsOf(rows[id := r], code)| == |RedemptionsOf(rows, code)| + if r.code == code then 1 else 0
  {
    assert RedemptionsOf(rows[id := r], code) == RedemptionsOf(rows, code) + if r.code == code then {id} else {};
  }

  lemma OrderRedeems(db: Shop, user: nat, o: Order, code: nat)
    requires Keyed(db)
    ensures |RedemptionsOf(Publish(db, user, o).redemptions, code)| ==
            |RedemptionsOf(db.redemptions, code)| + if o.promo == Some(code) then 1 else 0
  {
    if o.promo.Some? {
      RowRedeems(db.redemptions, |db.orders|, Redemption(o.promo.value, user), code);
    }
  }

  lemma OrderCode(db: Shop, req: Request, saw: nat, code: nat)
    requires Decide(ReadSeeing(db, req, saw), req).Success?
    ensures Decide(ReadSeeing(db, req, saw), req).value.promo == Some(code) <==> CarriesCode(db, req.user, code)
  {
    var v := ReadSeeing(db, req, saw);
    Ledger.DecidedOrder(v, req, Decide(v, req).value);
  }

  /** A checkout redeems the code on its cart when it places an order, and no other. */
  lemma SeeingRedeems(db: Shop, req: Request, saw: nat, code: nat)
    requires Keyed(db)
    ensures
      var after := CreateSeeing(db, req, saw);
      && after.shop.promos == db.promos
      && |RedemptionsOf(after.shop.redemptions, code)| ==
           |RedemptionsOf(db.redemptions, code)|
           + if after.reply.Placed? && CarriesCode(db, req.user, code) then 1 else 0
  {
    var verdict := Decide(ReadSeeing(db, req, saw), req);
    if verdict.Success? {
      OrderCode(db, req, saw, code);
      OrderRedeems(db, req.user, verdict.value, code);
    }
  }

  lemma MisledIsFull(db: Shop, req: Request, saw: nat, code: nat)
    requires Misled(db, req, saw) && CarriesCode(db, req.user, code)
    ensures db.promos[code].maxRedemptions.Some?
    ensures db.promos[code].maxRedemptions.value <= |RedemptionsOf(db.redemptions, code)|
  {
    var v := Read(db, req);
    if EarlyRefusal(v.lines, v.rate).Some? {
      EarlyKind(v, req);
    } else {
      LateVerdict(v, req);
    }
  }

  lemma StepCapIff(db: Shop, req: Request, saw: nat, code: nat)
    requires Ledger.BooksSound(db) && History.CapHolds(db, code) && saw <= Redeemed(db, req.user)
    ensures History.CapHolds(CreateSeeing(db, req, saw).shop, code) <==> !Oversteps(db, req, saw, code)
  {
    SeeingIff(db, req, saw);
    SeeingRedeems(db, req, saw, code);
    if Misled(db, req, saw) {
      if CarriesCode(db, req.user, code) {
        MisledIsFull(db, req, saw, code);
      }
    } else {
      History.CheckoutKeepsCap(db, req, code);
    }
  }

  ghost predicate NobodyOversteps(db: Shop, log: seq<Entry>, code: nat) {
    log == [] ||
    var front, last := log[..|log| - 1], log[|log| - 1];
    NobodyOversteps(db, front, code) && !Oversteps(Serial(db, front), last.req, last.saw, code)
  }

  /** A cap once exceeded stays exceeded: checkouts only add redemptions. */
  lemma StaysExceeded(db: Shop, req: Request, saw: nat, code: nat)
    requires Keyed(db) && !History.CapHolds(db, code)
    ensures !History.CapHolds(CreateSeeing(db, req, saw).shop, code)
  {
    SeeingRedeems(db, req, saw, code);
  }

  lemma {:induction false} CapAlong(db: Shop, log: seq<Entry>, code: nat)
    requires Ledger.BooksSound(db) && History.CapHolds(db, code) && FlashSale.RepliesSerial(db, log)
    ensures History.CapHolds(Serial(db, log), code) <==> NobodyOversteps(db, log, code)
  {
    if log != [] {
      var front, last := log[..|log| - 1], log[|log| - 1];
      FlashSale.RepliesPrefix(db, log);
      CapAlong(db, front, code);
      FlashSale.SerialKeeps(db, front);
      CapAlongLast(Serial(db, front), last.req, last.saw, code);
    }
  }

  lemma CapAlongLast(db: Shop, req: Request, saw: nat, code: nat)
    requires Ledger.BooksSound(db) && saw <= Redeemed(db, req.user)
    ensures History.CapHolds(CreateSeeing(db, req, saw).shop, code) <==>
              History.CapHolds(db, code) && !Oversteps(db, req, saw, code)
  {
    FlashSale.SoundIsKeyed(db);
    if History.CapHolds(db, code) {
      StepCapIff(db, req, saw, code);
    } else {
      StaysExceeded(db, req, saw, code);
    }
  }

  /**
   * At every instant of every interleaving a code is within its cap if and only if no
   * checkout that had counted one to spare placed its order after the last one was gone.
   */
  lemma CapIff(db: Shop, reqs: map<nat, Request>, schedule: seq<nat>, code: nat)
    requires Ledger.BooksSound(db) && History.CapHolds(db, code)
    ensures
      var s := Execute(Begin(db, reqs), schedule);
      History.CapHolds(s.db, code) <==> NobodyOversteps(db, s.log, code)
  {
    FlashSale.SoundIsKeyed(db);
    Serialisable(db, reqs, schedule);
    CapAlong(db, Execute(Begin(db, reqs), schedule).log, code);
  }

  // ----- The last redemption, twice -----------------------------------------------------------

  /** A customer with one line in the cart and the code on it, whom a checkout alone would serve. */
  ghost predicate Buys(db: Shop, req: Request, line: CartLine, code: nat) {
    && Sellable(db, req, line)
    && CarriesCode(db, req.user, code)
    && Decide(Read(db, req), req).Success?
  }

  /** Both count before either commits; then one commits after the other. */
  function Race(i: nat, j: nat): seq<nat> {
    FiveTurns(i) + FiveTurns(j) + FourTurns(i) + FourTurns(j)
  }

  lemma BuyerReads(db: Shop, req: Request, line: CartLine, code: nat)
    requires Buys(db, req, line, code)
    ensures PromoSeen(db, req.user, Redeemed(db, req.user)).Some?
    ensures PromoSeen(db, req.user, Redeemed(db, req.user)).value.id == code
    ensures OrderOf(db, req).promo == Some(code) && OrderOf(db, req).user == Some(req.user)
    ensures !Conflicts(db, req.user, OrderOf(db, req))
  {
    LineReads(db, req, line);
    DecidedIsNew(db, req);
    Ledger.DecidedOrder(Read(db, req), req, OrderOf(db, req));
  }

  /** Two customers with different jars of different products and the same code. */
  ghost predicate Racers(db: Shop, a: Request, la: CartLine, b: Request, lb: CartLine, code: nat) {
    && Buys(db, a, la, code) && Buys(db, b, lb, code)
    && a.user != b.user && la.variant != lb.variant
    && ProductOf(db.catalog.productOf, la.variant) != ProductOf(db.catalog.productOf, lb.variant)
  }

  /** Nothing has been committed and both wait for the code. */
  ghost predicate BothWait(db: Shop, s: Sys, i: nat, a: Request, la: CartLine, j: nat, b: Request, lb: CartLine) {
    && s.db == db && s.log == [] && i != j
    && i in s.txns && s.txns[i] == WaitsWith(db, a, la)
    && j in s.txns && s.txns[j] == WaitsWith(db, b, lb)
    && s.owner == Locked(Locked(map[], i, a.user, la.variant), j, b.user, lb.variant)
  }

  lemma BothAsked(db: Shop, reqs: map<nat, Request>, i: nat, la: CartLine, j: nat, lb: CartLine)
    requires i in reqs && j in reqs && i != j
    ensures BothWait(db, Asked(Asked(Begin(db, reqs), i, reqs[i], la), j, reqs[j], lb), i, reqs[i], la, j, reqs[j], lb)
  {
  }

  lemma BothCount(db: Shop, reqs: map<nat, Request>, i: nat, la: CartLine, j: nat, lb: CartLine, code: nat)
    requires i in reqs && j in reqs && i != j && Racers(db, reqs[i], la, reqs[j], lb, code)
    ensures BothWait(db, Execute(Begin(db, reqs), FiveTurns(i) + FiveTurns(j)), i, reqs[i], la, j, reqs[j], lb)
  {
    var s0 := Begin(db, reqs);
    Deadlock.ExecuteConcat(s0, FiveTurns(i), FiveTurns(j));
    Asks(s0, i, reqs[i], la);
    SecondAsks(db, reqs, i, la, j, lb);
    BothAsked(db, reqs, i, la, j, lb);
  }

  lemma SecondAsks(db: Shop, reqs: map<nat, Request>, i: nat, la: CartLine, j: nat, lb: CartLine)
    requires i in reqs && j in reqs && i != j && reqs[i].user != reqs[j].user && la.variant != lb.variant
    requires Sellable(db, reqs[j], lb)
    ensures
      var s1 := Asked(Begin(db, reqs), i, reqs[i], la);
      Execute(s1, FiveTurns(j)) == Asked(s1, j, reqs[j], lb)
  {
    Asks(Asked(Begin(db, reqs), i, reqs[i], la), j, reqs[j], lb);
  }

  /** The first has committed, and the second waits on with what it saw. */
  ghost predicate OneWaits(db: Shop, s: Sys, i: nat, a: Request, o: Order, j: nat, b: Request, lb: CartLine) {
    && WroteOrder(db, s.db, a.user, o)
    && s.log == [Entry(i, a, Redeemed(db, a.user), Placed(|db.orders|))]
    && j in s.txns && s.txns[j] == WaitsWith(db, b, lb)
    && s.owner == Locked(map[], j, b.user, lb.variant)
  }

  lemma FirstOwners(i: nat, u: nat, v: nat, j: nat, u': nat, v': nat)
    requires i != j && u != u' && v != v'
    ensures Released(Locked(Locked(map[], i, u, v), j, u', v'), i) == Locked(map[], j, u', v')
  {
  }

  lemma FinishShows(s: Sys, id: nat, t: Txn, owner: map<Row, nat>, reply: Reply)
    requires id in s.txns
    ensures
      var s' := Finish(With(s, id, t, owner), id, reply);
      && s'.log == s.log + [Entry(id, t.req, t.saw, reply)]
      && s'.owner == Released(owner, id)
      && s'.txns.Keys == s.txns.Keys && forall other | other in s.txns && other != id :: s'.txns[other] == s.txns[other]
  {
  }

  /** On these facts of the tables a checkout of one line that has seen `saw` is judged to place `o`. */
  ghost predicate JudgedAs(db: Shop, req: Request, view: LineView, saw: nat, o: Order, code: nat) {
    var promo := PromoSeen(db, req.user, saw);
    var rate, prior := RateIn(db.catalog, req.currency), PriorOrders(db, req.user);
    && promo.Some? && promo.value.id == code
    && Decide(View([view], rate, promo, prior), req) == Success(o)
    && !Conflicts(db, req.user, o)
  }

  /** One racer has committed: its order is written and its locks are gone; the others are where they were. */
  ghost predicate Committed(s: Sys, s': Sys, id: nat, req: Request, saw: nat, o: Order) {
    && WroteOrder(s.db, s'.db, req.user, o)
    && s'.log == s.log + [Entry(id, req, saw, Placed(|s.db.orders|))]
    && s'.owner == Released(s.owner, id)
    && s'.txns.Keys == s.txns.Keys && forall other | other in s.txns && other != id :: s'.txns[other] == s.txns[other]
  }

  lemma RacerPlaces(s: Sys, id: nat, req: Request, line: CartLine, view: LineView, saw: nat, o: Order, code: nat)
    requires id in s.txns && s.txns[id] == Waiting(req, line, view, saw) && JudgedAs(s.db, req, view, saw, o, code)
    requires PromoRow(code) !in s.owner && ProductRow(ProductOf(s.db.catalog.productOf, view.variant)) !in s.owner
    ensures Committed(s, Execute(s, FourTurns(id)), id, req, saw, o)
  {
    var promo, product := PromoSeen(s.db, req.user, saw), ProductOf(s.db.catalog.productOf, view.variant);
    PlacesOrder(s, id, req, line, view, saw, o, promo);
    ReleasesAll(s.owner, id, PromoRow(code), ProductRow(product), true);
    FinishShows(s, id, Txn(req, LockingProducts, [line], [view], saw, promo, Some(o), [At(s.db.sales, product)]),
                PromoLocked(s, id, promo)[ProductRow(product) := id], Placed(|s.db.orders|));
  }

  lemma BuyerIsJudged(db: Shop, req: Request, line: CartLine, code: nat)
    requires Buys(db, req, line, code)
    ensures JudgedAs(db, req, ReadLine(db, line, req.currency), Redeemed(db, req.user), OrderOf(db, req), code)
  {
    LineReads(db, req, line);
    BuyerReads(db, req, line, code);
  }

  lemma RowsAreFree(i: nat, u: nat, v: nat, j: nat, u': nat, v': nat, code: nat, product: nat)
    ensures PromoRow(code) !in Locked(Locked(map[], i, u, v), j, u', v')
    ensures ProductRow(product) !in Locked(Locked(map[], i, u, v), j, u', v')
  {
  }

  lemma FirstPlaces(db: Shop, s: Sys, i: nat, a: Request, la: CartLine, j: nat, b: Request, lb: CartLine, code: nat)
    requires Buys(db, a, la, code) && a.user != b.user && la.variant != lb.variant && BothWait(db, s, i, a, la, j, b, lb)
    ensures OneWaits(db, Execute(s, FourTurns(i)), i, a, OrderOf(db, a), j, b, lb)
  {
    BuyerIsJudged(db, a, la, code);
    FirstOwners(i, a.user, la.variant, j, b.user, lb.variant);
    RowsAreFree(i, a.user, la.variant, j, b.user, lb.variant, code, ProductOf(db.catalog.productOf, la.variant));
    RacerPlaces(s, i, a, la, ReadLine(db, la, a.currency), Redeemed(db, a.user), OrderOf(db, a), code);
    ThenOneWaits(db, s, Execute(s, FourTurns(i)), i, a, la, j, b, lb);
  }

  lemma ThenOneWaits(db: Shop, s: Sys, s': Sys, i: nat, a: Request, la: CartLine, j: nat, b: Request, lb: CartLine)
    requires BothWait(db, s, i, a, la, j, b, lb) && Decide(Read(db, a), a).Success?
    requires Committed(s, s', i, a, Redeemed(db, a.user), OrderOf(db, a))
    requires Released(s.owner, i) == Locked(map[], j, b.user, lb.variant)
    ensures OneWaits(db, s', i, a, OrderOf(db, a), j, b, lb)
  {
    assert s'.log == [] + [Entry(i, a, Redeemed(db, a.user), Placed(|db.orders|))];
  }

  /** The other customer's order changes nothing that the second goes by. */
  lemma SecondSees(db: Shop, db': Shop, a: nat, o: Order, b: nat, saw: nat, code: nat)
    requires Keyed(db) && WroteOrder(db, db', a, o) && o.user == Some(a) && a != b
    ensures PromoSeen(db', b, saw) == PromoSeen(db, b, saw)
    ensures PriorOrders(db', b) == PriorOrders(db, b)
    ensures UsedBy(db'.redemptions, code, b) == UsedBy(db.redemptions, code, b)
  {
    var published := Publish(db, a, o);
    PromoFrame(db, a, o, b, saw);
    RedemptionFrame(db, a, o, code, b);
    PriorOrdersFrame(db, a, o, b);
    assert db'.redemptions == published.redemptions && db'.orders == published.orders;
  }

  lemma SecondIsJudged(db: Shop, db': Shop, a: nat, o: Order, b: Request, lb: CartLine, code: nat)
    requires Keyed(db) && Buys(db, b, lb, code) && a != b.user && o.user == Some(a) && WroteOrder(db, db', a, o)
    ensures JudgedAs(db', b, ReadLine(db, lb, b.currency), Redeemed(db, b.user), OrderOf(db, b), code)
  {
    BuyerIsJudged(db, b, lb, code);
    BuyerReads(db, b, lb, code);
    SecondSees(db, db', a, o, b.user, Redeemed(db, b.user), code);
  }

  lemma OneRowsAreFree(j: nat, u: nat, v: nat, code: nat, product: nat)
    ensures PromoRow(code) !in Locked(map[], j, u, v) && ProductRow(product) !in Locked(map[], j, u, v)
  {
  }

  lemma SecondPlaces(db: Shop, s: Sys, i: nat, a: Request, o: Order, j: nat, b: Request, lb: CartLine, code: nat)
    requires Keyed(db) && Buys(db, b, lb, code) && a.user != b.user && o.user == Some(a.user)
    requires OneWaits(db, s, i, a, o, j, b, lb)
    ensures Committed(s, Execute(s, FourTurns(j)), j, b, Redeemed(db, b.user), OrderOf(db, b))
  {
    SecondIsJudged(db, s.db, a.user, o, b, lb, code);
    OneRowsAreFree(j, b.user, lb.variant, code, ProductOf(s.db.catalog.productOf, lb.variant));
    RacerPlaces(s, j, b, lb, ReadLine(db, lb, b.currency), Redeemed(db, b.user), OrderOf(db, b), code);
  }

  lemma RaceSplits(s: Sys, i: nat, j: nat)
    ensures Execute(s, Race(i, j)) == Execute(Execute(Execute(s, FiveTurns(i) + FiveTurns(j)), FourTurns(i)), FourTurns(j))
  {
    Deadlock.ExecuteConcat(s, FiveTurns(i) + FiveTurns(j), FourTurns(i));
    Deadlock.ExecuteConcat(s, FiveTurns(i) + FiveTurns(j) + FourTurns(i), FourTurns(j));
  }

  lemma WroteRedeems(db: Shop, db': Shop, user: nat, o: Order, code: nat)
    requires Keyed(db) && WroteOrder(db, db', user, o) && o.promo == Some(code)
    ensures |RedemptionsOf(db'.redemptions, code)| == |RedemptionsOf(db.redemptions, code)| + 1
    ensures forall id | id in db'.redemptions :: id < |db'.orders|
  {
    RowRedeems(db.redemptions, |db.orders|, Redemption(code, user), code);
  }

  /** What is left of the race when both have committed. */
  ghost predicate RaceRun(db: Shop, s: Sys, i: nat, a: Request, j: nat, b: Request, code: nat) {
    && s.log == [Entry(i, a, Redeemed(db, a.user), Placed(|db.orders|)),
                 Entry(j, b, Redeemed(db, b.user), Placed(|db.orders| + 1))]
    && s.db.promos == db.promos
    && |RedemptionsOf(s.db.redemptions, code)| == |RedemptionsOf(db.redemptions, code)| + 2
  }

  lemma SecondEnds(db: Shop, s1: Sys, s2: Sys, i: nat, a: Request, j: nat, b: Request, lb: CartLine, code: nat)
    requires Keyed(db) && Decide(Read(db, a), a).Success? && Decide(Read(db, b), b).Success?
    requires OrderOf(db, a).promo == Some(code) && OrderOf(db, b).promo == Some(code)
    requires OneWaits(db, s1, i, a, OrderOf(db, a), j, b, lb)
    requires Committed(s1, s2, j, b, Redeemed(db, b.user), OrderOf(db, b))
    ensures RaceRun(db, s2, i, a, j, b, code)
  {
    RacersRedeem(db, s1.db, s2.db, a, b, code);
  }

  lemma RaceEnds(db: Shop, s: Sys, i: nat, a: Request, la: CartLine, j: nat, b: Request, lb: CartLine, code: nat)
    requires Keyed(db) && Buys(db, a, la, code) && Buys(db, b, lb, code)
    requires a.user != b.user && la.variant != lb.variant && BothWait(db, s, i, a, la, j, b, lb)
    ensures RaceRun(db, Execute(Execute(s, FourTurns(i)), FourTurns(j)), i, a, j, b, code)
  {
    var s1 := Execute(s, FourTurns(i));
    BuyerReads(db, a, la, code);
    BuyerReads(db, b, lb, code);
    FirstPlaces(db, s, i, a, la, j, b, lb, code);
    SecondPlaces(db, s1, i, a, OrderOf(db, a), j, b, lb, code);
    SecondEnds(db, s1, Execute(s1, FourTurns(j)), i, a, j, b, lb, code);
  }

  /** Whatever the code's cap: when both have counted before either commits, both order. */
  lemma BothOrder(db: Shop, reqs: map<nat, Request>, i: nat, la: CartLine, j: nat, lb: CartLine, code: nat)
    requires Keyed(db) && i in reqs && j in reqs && i != j && Racers(db, reqs[i], la, reqs[j], lb, code)
    ensures RaceRun(db, Execute(Begin(db, reqs), Race(i, j)), i, reqs[i], j, reqs[j], code)
  {
    RaceSplits(Begin(db, reqs), i, j);
    BothCount(db, reqs, i, la, j, lb, code);
    RaceEnds(db, Execute(Begin(db, reqs), FiveTurns(i) + FiveTurns(j)), i, reqs[i], la, j, reqs[j], lb, code);
  }

  lemma RacersRedeem(db: Shop, db1: Shop, db2: Shop, a: Request, b: Request, code: nat)
    requires Keyed(db) && Decide(Read(db, a), a).Success? && Decide(Read(db, b), b).Success?
    requires OrderOf(db, a).promo == Some(code) && OrderOf(db, b).promo == Some(code)
    requires WroteOrder(db, db1, a.user, OrderOf(db, a)) && WroteOrder(db1, db2, b.user, OrderOf(db, b))
    ensures |RedemptionsOf(db2.redemptions, code)| == |RedemptionsOf(db.redemptions, code)| + 2
    ensures db2.promos == db.promos
  {
    WroteRedeems(db, db1, a.user, OrderOf(db, a), code);
    RowRedeems(db1.redemptions, |db1.orders|, Redemption(code, b.user), code);
  }

  /** One redemption of the code is left. */
  predicate OneLeft(db: Shop, code: nat) {
    code in db.promos && db.promos[code].maxRedemptions == Some(|RedemptionsOf(db.redemptions, code)| + 1)
  }

  lemma AloneCarries(db: Shop, req: Request, other: nat, code: nat)
    requires other != req.user
    ensures CarriesCode(CreateOrder(db, req).shop, other, code) == CarriesCode(db, other, code)
  {
    Ledger.CheckoutShape(db, req);
  }

  lemma AloneRedeems(db: Shop, req: Request, code: nat)
    requires Keyed(db)
    ensures
      var after := CreateOrder(db, req);
      && after.shop.promos == db.promos
      && |RedemptionsOf(after.shop.redemptions, code)| ==
           |RedemptionsOf(db.redemptions, code)|
           + if after.reply.Placed? && CarriesCode(db, req.user, code) then 1 else 0
  {
    NotMisledByTheTruth(db, req);
    SeeingIff(db, req, Redeemed(db, req.user));
    SeeingRedeems(db, req, Redeemed(db, req.user), code);
  }

  lemma NotMisledByTheTruth(db: Shop, req: Request)
    ensures !Misled(db, req, Redeemed(db, req.user))
  {
    if Misled(db, req, Redeemed(db, req.user)) {
      MisledIsFull(db, req, Redeemed(db, req.user), db.cartPromo[req.user]);
    }
  }

  /** One after the other, whichever comes first, two customers never both get the last one. */
  lemma OneOfTwoAlone(db: Shop, first: Request, second: Request, code: nat)
    requires Ledger.BooksSound(db) && OneLeft(db, code) && first.user != second.user
    requires CarriesCode(db, first.user, code) && CarriesCode(db, second.user, code)
    ensures
      var after := CreateOrder(db, first);
      !(after.reply.Placed? && CreateOrder(after.shop, second).reply.Placed?)
  {
    var after := CreateOrder(db, first).shop;
    Ledger.CheckoutKeeps(db, first, Read(db, first));
    FlashSale.SoundIsKeyed(db);
    FlashSale.SoundIsKeyed(after);
    AloneCarries(db, first, second.user, code);
    AloneRedeems(db, first, code);
    AloneRedeems(after, second, code);
    History.CheckoutKeepsCap(db, first, code);
    History.CheckoutKeepsCap(after, second, code);
  }

  /** Racing, they both do. */
  lemma LastOneTwice(db: Shop, reqs: map<nat, Request>, i: nat, la: CartLine, j: nat, lb: CartLine, code: nat)
    requires Ledger.BooksSound(db) && OneLeft(db, code)
    requires i in reqs && j in reqs && i != j && Racers(db, reqs[i], la, reqs[j], lb, code)
    ensures
      var s := Execute(Begin(db, reqs), Race(i, j));
      && |s.log| == 2 && s.log[0].reply.Placed? && s.log[1].reply.Placed?
      && History.CapHolds(db, code) && !History.CapHolds(s.db, code)
  {
    FlashSale.SoundIsKeyed(db);
    BothOrder(db, reqs, i, la, j, lb, code);
  }

  // ----- A shop where it happens ------------------------------------------------------------------

  /** Ten per cent off, for one customer; 1 and 2 have a jar each in their carts, and the code. */
  function Offer(code: nat): Shop {
    var once := Promo(code, [65], Percent, 10, None, None, Some(1), true, 0, false, map[]);
    var prices: Money := map[AMD := 1000];
    Shop(Catalog(map[1 := 1, 2 := 2], {}, {1, 2}, map[1 := prices, 2 := prices], map[AMD := ShippingRate(500, 0, None)]),
         map[1 := 5, 2 := 5], map[1 := 5, 2 := 5], map[1 := 0, 2 := 0],
         map[1 := [CartLine(1, 1)], 2 := [CartLine(2, 1)]],
         map[1 := code, 2 := code], map[code := once], [], map[])
  }

  function OfferRequests(): map<nat, Request> {
    map user: nat | user in {1, 2} :: Request(user, AMD, CashOnDelivery, 0)
  }

  lemma OfferIsSound(code: nat)
    ensures Ledger.BooksSound(Offer(code)) && OneLeft(Offer(code), code)
  {
    assert RedemptionsOf(map[], code) == {};
  }

  lemma OfferBuys(code: nat, user: nat)
    requires user in {1, 2}
    ensures Buys(Offer(code), Request(user, AMD, CashOnDelivery, 0), CartLine(user, 1), code)
  {
    var db, req := Offer(code), Request(user, AMD, CashOnDelivery, 0);
    var cart := [CartLine(user, 1)];
    var v := Read(db, req);
    assert cart[1..] == [] && ByVariant(cart) == cart;
    assert v.lines == [ReadLine(db, cart[0], AMD)] && v.lines[..0] == [];
    assert FirstProblem(v.lines) == LineProblem(v.lines[0]);
    assert RedemptionsOf(map[], code) == {};
    LateVerdict(v, req);
  }

  /** A shop whose cap some interleaving exceeds. */
  ghost predicate Exceedable(db: Shop, reqs: map<nat, Request>, code: nat) {
    && Ledger.BooksSound(db) && History.CapHolds(db, code)
    && exists schedule :: !History.CapHolds(Execute(Begin(db, reqs), schedule).db, code)
  }

  lemma RaceExceeds(db: Shop, reqs: map<nat, Request>, i: nat, la: CartLine, j: nat, lb: CartLine, code: nat)
    requires Ledger.BooksSound(db) && OneLeft(db, code)
    requires i in reqs && j in reqs && i != j && Racers(db, reqs[i], la, reqs[j], lb, code)
    ensures Exceedable(db, reqs, code)
  {
    LastOneTwice(db, reqs, i, la, j, lb, code);
  }

  /** Two customers are enough to exceed a cap of one. */
  lemma CapIsExceeded(code: nat)
    ensures Exceedable(Offer(code), OfferRequests(), code)
  {
    OfferIsSound(code);
    OfferBuys(code, 1);
    OfferBuys(code, 2);
    RaceExceeds(Offer(code), OfferRequests(), 1, CartLine(1, 1), 2, CartLine(2, 1), code);
  }
}
