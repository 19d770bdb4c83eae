/**
 * The two state machines an order lives in: where the parcel is and whether
 * the money has arrived (backend/internal/domain/order.go and checkout.go).
 */
module Lifecycle {

  datatype Status = Pending | Confirmed | Shipped | Delivered | Cancelled

  datatype PaymentStatus = Unpaid | Paid | Refunded

  datatype PaymentMethod = Card | BankTransfer | CashOnDelivery

  /** The transition table, as data. */
  function NextStatuses(from: Status): seq<Status> {
    match from
    case Pending => [Confirmed, Cancelled]
    case Confirmed => [Shipped, Cancelled]
    case Shipped => [Delivered]
    case _ => []
  }

  predicate ValidTransition(from: Status, to: Status) {
    to in NextStatuses(from)
  }

  predicate CustomerMayCancel(status: Status) {
    status == Pending
  }

  function NextPayments(from: PaymentStatus): seq<PaymentStatus> {
    match from
    case Unpaid => [Paid]
    case Paid => [Refunded]
    case Refunded => []
  }

  predicate ValidPayment(from: PaymentStatus, to: PaymentStatus) {
    to in NextPayments(from)
  }

  predicate SettlesOnDelivery(how: PaymentMethod) {
    how == CashOnDelivery
  }

  /** How far the money has travelled; it only ever grows. */
  function PaymentRank(p: PaymentStatus): nat {
    match p
    case Unpaid => 0
    case Paid => 1
    case Refunded => 2
  }

  /** How many steps a parcel can still take. */
  function StepsLeft(s: Status): nat {
    match s
    case Pending => 3
    case Confirmed => 2
    case Shipped => 1
    case _ => 0
  }

  /** A recorded timeline: it opens with the placing of the order and follows the table. */
  ghost predicate ValidHistory(events: seq<Status>) {
    && |events| > 0
    && events[0] == Pending
    && forall k | 0 < k < |events| :: ValidTransition(events[k - 1], events[k])
  }

  /** Every recorded step uses up at least one of the three that a new order has. */
  lemma {:induction false} HistoryBounded(events: seq<Status>)
    requires ValidHistory(events)
    ensures |events| - 1 + StepsLeft(events[|events| - 1]) <= 3
    ensures Cancelled !in events[..|events| - 1]
  {
    if |events| > 1 {
      var front := events[..|events| - 1];
      HistoryBounded(front);
      assert ValidTransition(events[|events| - 2], events[|events| - 1]);
    }
  }

  /** The lawful timelines are six: three ways to end, and three places to be on the way. */
  lemma LawfulTimelines(events: seq<Status>)
    ensures ValidHistory(events) <==>
              || events == [Pending] || events == [Pending, Confirmed] || events == [Pending, Confirmed, Shipped]
              || events == [Pending, Confirmed, Shipped, Delivered]
              || events == [Pending, Cancelled] || events == [Pending, Confirmed, Cancelled]
  {
    if ValidHistory(events) {
      HistoryBounded(events);
      if |events| > 1 {
        assert ValidTransition(events[0], events[1]);
      }
      if |events| > 2 {
        assert ValidTransition(events[1], events[2]);
      }
      if |events| > 3 {
        assert ValidTransition(events[2], events[3]);
      }
    }
  }

  /** A timeline grows by a table step from its last entry, and by nothing else. */
  lemma HistoryExtends(events: seq<Status>, to: Status)
    requires ValidHistory(events)
    ensures ValidHistory(events + [to]) <==> ValidTransition(events[|events| - 1], to)
  {
    var longer := events + [to];
    assert longer[|events| - 1] == events[|events| - 1] && longer[|events|] == to;
    if ValidHistory(longer) {
      assert ValidTransition(longer[|events| - 1], longer[|events|]);
    }
  }

  /** What an admin's payment change may do to the money: paid once, refunded after that, never back. */
  lemma PaymentMovesForward(from: PaymentStatus, to: PaymentStatus)
    ensures ValidPayment(from, to) <==> (from == Unpaid && to == Paid) || (from == Paid && to == Refunded)
    ensures ValidPayment(from, to) <==> PaymentRank(to) == PaymentRank(from) + 1
  {
  }
}
