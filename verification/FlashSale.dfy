/**
 * What the interleaved checkouts guarantee to the shop: the books stay sound
 * at every instant, nothing is oversold, the once-per-customer index never has to
 * step in, and no written order can trip the table's constraints
 * (backend/internal/store/orders.go, backend/migrations/000017_checkout.up.sql).
 */
module FlashSale {
  import opened Wrappers
  import opened Pricing
  import opened Transactions
  import opened Sorting
  import Ledger
  import History
  import opened Concurrency
  import Deadlock

  lemma SoundIsKeyed(db: Shop)
    requires Ledger.BooksSound(db)
    ensures Keyed(db)
  {
  }

  lemma {:induction false} SerialKeeps(db: Shop, log: seq<Entry>)
    requires Ledger.BooksSound(db)
    ensures Ledger.BooksSound(Serial(db, log))
  {
    if log != [] {
      SerialKeeps(db, log[..|log| - 1]);
      var before, last := Serial(db, log[..|log| - 1]), log[|log| - 1];
      Ledger.CheckoutKeeps(before, last.req, ReadSeeing(before, last.req, last.saw));
    }
  }

  /** At every instant of every interleaving the committed books are sound. */
  lemma InterleavedBooks(db: Shop, reqs: map<nat, Request>, schedule: seq<nat>)
    requires Ledger.BooksSound(db)
    ensures Ledger.BooksSound(Execute(Begin(db, reqs), schedule).db)
  {
    SoundIsKeyed(db);
    Serialisable(db, reqs, schedule);
    SerialKeeps(db, Execute(Begin(db, reqs), schedule).log);
  }

  /**
   * However many checkouts race for one code, none is ever refused by the
   * once-per-customer index: between a checkout's look at the redemptions and
   * its own insert, no other can redeem the code for the same customer.
   */
  lemma ConflictNeverHappens(db: Shop, reqs: map<nat, Request>, schedule: seq<nat>, k: nat)
    requires Keyed(db) && k < |Execute(Begin(db, reqs), schedule).log|
    ensures Execute(Begin(db, reqs), schedule).log[k].reply != Refused(RedemptionConflict)
  {
    Serialisable(db, reqs, schedule);
    var log := Execute(Begin(db, reqs), schedule).log;
    var before := Serial(db, log[..k]);
    History.ConflictUnreachable(before, log[k].req, ReadSeeing(before, log[k].req, log[k].saw));
  }

  // ----- Many customers, few jars --------------------------------------------------

  /** A checkout of one unit of v that only the shelf could refuse. */
  ghost predicate WantsOne(db: Shop, req: Request, v: nat) {
    && CartOf(db, req.user) == [CartLine(v, 1)]
    && PriceIn(db.catalog, v, req.currency).Some?
    && RateIn(db.catalog, req.currency).Some?
    && req.user !in db.cartPromo
  }

  lemma OneUnitView(db: Shop, req: Request, saw: nat, v: nat)
    requires WantsOne(db, req, v)
    ensures ReadSeeing(db, req, saw).lines == [ReadLine(db, CartLine(v, 1), req.currency)]
    ensures ReadSeeing(db, req, saw).promo.None?
  {
    var cart := [CartLine(v, 1)];
    assert cart[1..] == [];
    assert ByVariant(cart) == cart;
  }

  lemma OneUnitDecision(view: View, req: Request)
    requires |view.lines| == 1 && view.lines[0].price.Some? && view.lines[0].qty == 1
    requires view.rate.Some? && view.promo.None?
    ensures Decide(view, req).Success? <==> view.lines[0].stock >= 1
    ensures Decide(view, req).Success? ==>
              Decide(view, req).value.items == [ItemOf(view.lines[0])] && Decide(view, req).value.promo.None?
  {
    assert view.lines[..0] == [];
    assert FirstProblem(view.lines) == LineProblem(view.lines[0]);
  }

  /** It is placed exactly while the shelf has one, and takes exactly that one. */
  lemma OneUnitCheckout(db: Shop, req: Request, saw: nat, v: nat)
    requires WantsOne(db, req, v) && v in db.stock
    ensures
      var placed := CreateSeeing(db, req, saw);
      && (placed.reply.Placed? <==> db.stock[v] >= 1)
      && v in placed.shop.stock
      && placed.shop.stock[v] == db.stock[v] - if placed.reply.Placed? then 1 else 0
  {
    var view := ReadSeeing(db, req, saw);
    OneUnitView(db, req, saw, v);
    OneUnitDecision(view, req);
    if Decide(view, req).Success? {
      var o := Decide(view, req).value;
      assert o.items == [Item(v, o.items[0].price, 1)];
      QtyOfPresent(o.items, 0);
    }
  }

  lemma OthersStillWantOne(db: Shop, req: Request, saw: nat, other: Request, v: nat)
    requires WantsOne(db, other, v) && other.user != req.user
    ensures WantsOne(CreateSeeing(db, req, saw).shop, other, v)
  {
  }

  function PlacedCount(log: seq<Entry>): nat {
    if log == [] then 0
    else PlacedCount(log[..|log| - 1]) + if log[|log| - 1].reply.Placed? then 1 else 0
  }

  ghost predicate OnePerCustomer(db: Shop, log: seq<Entry>, v: nat) {
    && (forall k | 0 <= k < |log| :: WantsOne(db, log[k].req, v))
    && (forall i, j | 0 <= i < j < |log| :: log[i].req.user != log[j].req.user)
  }

  lemma {:induction false} StillWanting(db: Shop, log: seq<Entry>, req: Request, v: nat)
    requires WantsOne(db, req, v)
    requires forall k | 0 <= k < |log| :: log[k].req.user != req.user
    ensures WantsOne(Serial(db, log), req, v)
  {
    if log != [] {
      var last := log[|log| - 1];
      StillWanting(db, log[..|log| - 1], req, v);
      OthersStillWantOne(Serial(db, log[..|log| - 1]), last.req, last.saw, req, v);
    }
  }

  ghost predicate RepliesSerial(db: Shop, log: seq<Entry>) {
    forall k | 0 <= k < |log| :: AsSeen(Serial(db, log[..k]), log[k])
  }

  lemma RepliesPrefix(db: Shop, log: seq<Entry>)
    requires RepliesSerial(db, log) && log != []
    ensures RepliesSerial(db, log[..|log| - 1])
    ensures AsSeen(Serial(db, log[..|log| - 1]), log[|log| - 1])
  {
    var front := log[..|log| - 1];
    forall k | 0 <= k < |front|
      ensures AsSeen(Serial(db, front[..k]), front[k])
    {
      assert front[..k] == log[..k] && front[k] == log[k];
    }
  }

  lemma LastStillWants(db: Shop, log: seq<Entry>, v: nat)
    requires OnePerCustomer(db, log, v) && log != []
    ensures OnePerCustomer(db, log[..|log| - 1], v)
    ensures WantsOne(Serial(db, log[..|log| - 1]), log[|log| - 1].req, v)
  {
    StillWanting(db, log[..|log| - 1], log[|log| - 1].req, v);
  }

  /** Stock and successes after one more of the serial checkouts. */
  lemma SaleStep(db: Shop, log: seq<Entry>, v: nat)
    requires log != [] && RepliesSerial(db, log)
    requires WantsOne(Serial(db, log[..|log| - 1]), log[|log| - 1].req, v)
    requires v in Serial(db, log[..|log| - 1]).stock
    ensures v in Serial(db, log).stock
    ensures
      var left := Serial(db, log[..|log| - 1]).stock[v];
      && PlacedCount(log) == PlacedCount(log[..|log| - 1]) + (if left >= 1 then 1 else 0)
      && Serial(db, log).stock[v] == left - if left >= 1 then 1 else 0
  {
    RepliesPrefix(db, log);
    OneUnitCheckout(Serial(db, log[..|log| - 1]), log[|log| - 1].req, log[|log| - 1].saw, v);
  }

  /** So far the shelf has served one customer after another until it was empty, and then nobody. */
  ghost predicate Served(start: int, now: map<nat, int>, log: seq<Entry>, v: nat) {
    v in now && now[v] == start - PlacedCount(log) && PlacedCount(log) == Min(|log|, start)
  }

  lemma ServedNext(start: int, before: map<nat, int>, now: map<nat, int>, log: seq<Entry>, v: nat)
    requires log != [] && start >= 0 && Served(start, before, log[..|log| - 1], v) && v in now
    requires now[v] == before[v] - if before[v] >= 1 then 1 else 0
    requires PlacedCount(log) == PlacedCount(log[..|log| - 1]) + if before[v] >= 1 then 1 else 0
    ensures Served(start, now, log, v)
  {
  }

  lemma {:induction false} SerialSale(db: Shop, log: seq<Entry>, v: nat)
    requires OnePerCustomer(db, log, v) && v in db.stock && db.stock[v] >= 0
    requires RepliesSerial(db, log)
    ensures Served(db.stock[v], Serial(db, log).stock, log, v)
  {
    if log != [] {
      RepliesPrefix(db, log);
      LastStillWants(db, log, v);
      SerialSale(db, log[..|log| - 1], v);
      SaleStep(db, log, v);
      ServedNext(db.stock[v], Serial(db, log[..|log| - 1]).stock, Serial(db, log).stock, log, v);
    }
  }

  ghost function LoggedIds(log: seq<Entry>): set<nat> {
    set k | 0 <= k < |log| :: log[k].id
  }

  lemma {:induction false} DistinctLogSize(log: seq<Entry>)
    requires forall i, j | 0 <= i < j < |log| :: log[i].id != log[j].id
    ensures |LoggedIds(log)| == |log|
  {
    if log != [] {
      var n := |log| - 1;
      DistinctLogSize(log[..n]);
      assert LoggedIds(log) == LoggedIds(log[..n]) + {log[n].id};
      assert log[n].id !in LoggedIds(log[..n]);
    }
  }

  lemma {:induction false} ExecuteKeepsRequests(db: Shop, reqs: map<nat, Request>, schedule: seq<nat>)
    ensures Execute(Begin(db, reqs), schedule).txns.Keys == reqs.Keys
    ensures forall id | id in reqs :: Execute(Begin(db, reqs), schedule).txns[id].req == reqs[id]
  {
    if schedule != [] {
      ExecuteKeepsRequests(db, reqs, schedule[..|schedule| - 1]);
    }
  }

  /** When all are done the log names every transaction once, under its own request. */
  lemma LogCoversAll(reqs: map<nat, Request>, txns: map<nat, Txn>, log: seq<Entry>)
    requires LogExact(txns, log) && txns.Keys == reqs.Keys
    requires forall id | id in reqs :: txns[id].req == reqs[id] && txns[id].phase == Finished
    ensures |log| == |reqs|
    ensures forall k | 0 <= k < |log| :: log[k].id in reqs && log[k].req == reqs[log[k].id]
  {
    DistinctLogSize(log);
    forall id | id in reqs
      ensures id in LoggedIds(log)
    {
      assert Logged(log, id);
    }
    assert LoggedIds(log) == reqs.Keys;
  }

  /**
   * n customers race for k units, one each, in any interleaving: when all are
   * done exactly min(n, k) orders were placed and k - min(n, k) units are left.
   */
  lemma NeverOversold(db: Shop, reqs: map<nat, Request>, schedule: seq<nat>, v: nat)
    requires Keyed(db) && v in db.stock && db.stock[v] >= 0
    requires forall id | id in reqs :: WantsOne(db, reqs[id], v)
    requires forall a, b | a in reqs && b in reqs && a != b :: reqs[a].user != reqs[b].user
    requires Deadlock.AllFinished(Execute(Begin(db, reqs), schedule))
    ensures PlacedCount(Execute(Begin(db, reqs), schedule).log) == Min(|reqs|, db.stock[v])
    ensures v in Execute(Begin(db, reqs), schedule).db.stock
    ensures Execute(Begin(db, reqs), schedule).db.stock[v] == db.stock[v] - Min(|reqs|, db.stock[v])
  {
    FinishedLog(db, reqs, schedule, v);
    SerialSale(db, Execute(Begin(db, reqs), schedule).log, v);
  }

  lemma FinishedLog(db: Shop, reqs: map<nat, Request>, schedule: seq<nat>, v: nat)
    requires Keyed(db) && forall id | id in reqs :: WantsOne(db, reqs[id], v)
    requires forall a, b | a in reqs && b in reqs && a != b :: reqs[a].user != reqs[b].user
    requires Deadlock.AllFinished(Execute(Begin(db, reqs), schedule))
    ensures
      var s := Execute(Begin(db, reqs), schedule);
      OnePerCustomer(db, s.log, v) && RepliesSerial(db, s.log) && |s.log| == |reqs| && s.db == Serial(db, s.log)
  {
    var s := Execute(Begin(db, reqs), schedule);
    Serialisable(db, reqs, schedule);
    ExecuteKeepsRequests(db, reqs, schedule);
    LogCoversAll(reqs, s.txns, s.log);
    OneEach(db, reqs, s.log, v);
  }

  lemma OneEach(db: Shop, reqs: map<nat, Request>, log: seq<Entry>, v: nat)
    requires forall id | id in reqs :: WantsOne(db, reqs[id], v)
    requires forall a, b | a in reqs && b in reqs && a != b :: reqs[a].user != reqs[b].user
    requires forall i, j | 0 <= i < j < |log| :: log[i].id != log[j].id
    requires forall k | 0 <= k < |log| :: log[k].id in reqs && log[k].req == reqs[log[k].id]
    ensures OnePerCustomer(db, log, v)
  {
  }

  // ----- The constraints on the orders table ------------------------------------------

  /** What the schema checks of every order row. */
  predicate RowChecks(t: Totals) {
    && t.subtotal >= 0 && t.shipping >= 0 && t.discount >= 0 && t.tax >= 0 && t.total >= 0
    && t.member >= 0 && t.promo >= 0
    && t.subtotal + t.shipping - t.discount == t.total
    && t.tax <= t.subtotal
    && t.member + t.promo == t.discount
  }

  /** What the schema and the admin forms guarantee of prices, rates and codes. */
  ghost predicate SoundPrices(s: Shop) {
    && (forall v, c | v in s.catalog.prices && c in s.catalog.prices[v] :: s.catalog.prices[v][c] > 0)
    && (forall c | c in s.catalog.rates :: SoundRate(s.catalog.rates[c]))
    && (forall code | code in s.promos :: SoundPromo(s.promos[code]))
  }

  lemma {:induction false} SubtotalNonNegative(lines: seq<LineView>)
    requires forall i | 0 <= i < |lines| :: LinePrice(lines[i]) >= 0 && lines[i].qty > 0
    ensures Subtotal(lines) >= 0
  {
    if lines != [] {
      SubtotalNonNegative(lines[..|lines| - 1]);
    }
  }

  lemma DecidedTotals(v: View, req: Request, o: Order)
    requires Decide(v, req) == Success(o)
    ensures v.rate.Some? && o.totals == Quote(InputOf(v, v.rate.value, req)).totals
  {
  }

  lemma PassesChecks(v: View, req: Request, o: Order)
    requires Decide(v, req) == Success(o) && v.rate.Some? && Sound(InputOf(v, v.rate.value, req))
    ensures RowChecks(o.totals)
  {
    DecidedTotals(v, req, o);
    QuoteBalances(InputOf(v, v.rate.value, req));
  }

  lemma InputIsSound(s: Shop, req: Request)
    requires Ledger.BooksSound(s) && SoundPrices(s) && Read(s, req).rate.Some?
    ensures Sound(InputOf(Read(s, req), Read(s, req).rate.value, req))
  {
    Ledger.ReadLinesSound(s, req);
    Ledger.NoneLive(s.orders, req.user);
    SubtotalNonNegative(Read(s, req).lines);
  }

  /** No order a checkout writes can be thrown out by the table's constraints. */
  lemma OrdersPassChecks(s: Shop, req: Request)
    requires Ledger.BooksSound(s) && SoundPrices(s) && Ledger.NewOrder(s, req).Some?
    ensures RowChecks(Ledger.NewOrder(s, req).value.totals)
  {
    DecidedTotals(Read(s, req), req, Ledger.NewOrder(s, req).value);
    InputIsSound(s, req);
    PassesChecks(Read(s, req), req, Ledger.NewOrder(s, req).value);
  }
}
