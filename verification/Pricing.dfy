/**
 * What a basket costs: the promo verdict, the two discounts, shipping, the
 * free-shipping gap and the contained tax (backend/internal/domain/price.go,
 * promo.go and checkout.go).
 *
 * `Quote` says what every figure IS, each in its own closed form; the method
 * `Price` is the step-by-step calculator and is proved to compute it.
 */
module Pricing {
  import opened Wrappers
  import opened Money

  datatype PromoKind = Percent | Fixed | FreeShipping

  datatype PromoValue = PromoValue(amount: Option<int>, minSubtotal: Option<int>)

  /**
   * A code with the two live counts the store fills in for the asking shopper;
   * `text` is what customers type, trimmed and upper-cased.
   */
  datatype Promo = Promo(
    id: nat,
    text: seq<Byte>,
    kind: PromoKind,
    percent: int,
    startsAt: Option<int>,
    endsAt: Option<int>,
    maxRedemptions: Option<int>,
    active: bool,
    redemptions: int,
    usedByShopper: bool,
    values: map<Currency, PromoValue>)

  datatype Issue = NoIssue | UnknownCode | Expired | AlreadyUsed | Exhausted | NotInMarket | BelowMinimum

  datatype ShippingRate = ShippingRate(base: int, surcharge: int, freeOver: Option<int>)

  datatype PriceInput = PriceInput(
    currency: Currency,
    subtotal: int,
    cold: bool,
    rate: ShippingRate,
    prior: int,
    promo: Option<Promo>,
    now: int)

  datatype Totals = Totals(
    subtotal: int,
    shipping: int,
    discount: int,
    tax: int,
    total: int,
    member: int,
    promo: int)

  datatype Breakdown = Breakdown(
    totals: Totals,
    currency: Currency,
    firstDeliveryFree: bool,
    baseWaived: bool,
    remaining: Option<int>,
    promoId: Option<nat>,
    issue: Issue)

  const MEMBER_PERCENT := 8
  const VAT_PERCENT := 20

  /** pct per cent of an amount, rounding half up. */
  function PercentOf(amount: int, pct: int): int {
    TruncDiv(amount * pct + 50, 100)
  }

  /** The tax already inside a VAT-inclusive amount. */
  function ContainedVAT(amount: int): int {
    TruncDiv(amount * VAT_PERCENT + (100 + VAT_PERCENT) / 2, 100 + VAT_PERCENT)
  }

  /** The shop's own price of delivering a basket, blind to members and codes. */
  function ShippingFor(rate: ShippingRate, subtotal: int, cold: bool): int {
    (if rate.freeOver.Some? && subtotal >= rate.freeOver.value then 0 else rate.base)
    + if cold then rate.surcharge else 0
  }

  /** Why a code cannot apply right now, checked in the order the shopper is told. */
  function IssueOf(p: Promo, now: int, currency: Currency, subtotal: int): Issue {
    if !p.active || (p.startsAt.Some? && now < p.startsAt.value) then UnknownCode
    else if p.endsAt.Some? && now > p.endsAt.value then Expired
    else if p.usedByShopper then AlreadyUsed
    else if p.maxRedemptions.Some? && p.redemptions >= p.maxRedemptions.value then Exhausted
    else if p.kind.Fixed? && (currency !in p.values || p.values[currency].amount.None?) then NotInMarket
    else if currency in p.values && p.values[currency].minSubtotal.Some?
            && subtotal < p.values[currency].minSubtotal.value then BelowMinimum
    else NoIssue
  }

  // ----- What each figure is ------------------------------------------------

  predicate Applies(i: PriceInput) {
    i.promo.Some? && IssueOf(i.promo.value, i.now, i.currency, i.subtotal) == NoIssue
  }

  predicate OverThreshold(i: PriceInput) {
    i.rate.freeOver.Some? && i.subtotal >= i.rate.freeOver.value
  }

  /** Any one of three promises waives the base rate. */
  predicate BaseFree(i: PriceInput) {
    OverThreshold(i) || i.prior == 0 || (Applies(i) && i.promo.value.kind.FreeShipping?)
  }

  function MemberDiscount(i: PriceInput): int {
    if i.prior >= 1 then PercentOf(i.subtotal, MEMBER_PERCENT) else 0
  }

  /** What the code promises before it is cut to the goods left to discount. */
  function PromoFace(i: PriceInput): int {
    if !Applies(i) then 0
    else match i.promo.value.kind
      case Percent => PercentOf(i.subtotal, i.promo.value.percent)
      case Fixed => i.promo.value.values[i.currency].amount.value
      case FreeShipping => 0
  }

  function PromoDiscount(i: PriceInput): int {
    if Applies(i) then Min(PromoFace(i), i.subtotal - MemberDiscount(i)) else 0
  }

  /** The base rate that is charged: everything but the cold-chain surcharge. */
  function BaseCharged(i: PriceInput): int {
    if BaseFree(i) then 0 else i.rate.base
  }

  function Shipping(i: PriceInput): int {
    BaseCharged(i) + if i.cold then i.rate.surcharge else 0
  }

  predicate BaseWaived(i: PriceInput) {
    i.rate.base > 0 && BaseCharged(i) == 0
  }

  function Gap(i: PriceInput): Option<int> {
    if i.rate.freeOver.Some? && !BaseWaived(i) && i.rate.freeOver.value > i.subtotal
    then Some(i.rate.freeOver.value - i.subtotal)
    else None
  }

  /** What the customer pays for the goods alone. */
  function Payable(i: PriceInput): int {
    i.subtotal - MemberDiscount(i) - PromoDiscount(i)
  }

  function Quote(i: PriceInput): Breakdown {
    Breakdown(
      Totals(i.subtotal, Shipping(i), MemberDiscount(i) + PromoDiscount(i), ContainedVAT(Payable(i)),
             Payable(i) + Shipping(i), MemberDiscount(i), PromoDiscount(i)),
      i.currency,
      i.prior == 0,
      BaseWaived(i),
      Gap(i),
      if i.promo.Some? then Some(i.promo.value.id) else None,
      if i.promo.Some? then IssueOf(i.promo.value, i.now, i.currency, i.subtotal) else NoIssue)
  }

  /** The one calculator every screen calls, in the order its rules are applied. */
  method Price(i: PriceInput) returns (b: Breakdown)
    ensures b == Quote(i)
  {
    var base := i.rate.base;
    if i.rate.freeOver.Some? && i.subtotal >= i.rate.freeOver.value {
      base := 0;
    }
    var firstDeliveryFree := false;
    if i.prior == 0 {
      firstDeliveryFree := true;
      base := 0;
    }

    var member, promo := 0, 0;
    if i.prior >= 1 {
      member := PercentOf(i.subtotal, MEMBER_PERCENT);
    }
    var promoId, issue := None, NoIssue;
    if i.promo.Some? {
      var p := i.promo.value;
      promoId := Some(p.id);
      issue := IssueOf(p, i.now, i.currency, i.subtotal);
      if issue == NoIssue {
        match p.kind {
          case Percent => promo := PercentOf(i.subtotal, p.percent);
          case Fixed => promo := p.values[i.currency].amount.value;
          case FreeShipping => base := 0;
        }
        var room := i.subtotal - member;
        if promo > room {
          promo := room;
        }
      }
    }

    assert member == MemberDiscount(i) && promo == PromoDiscount(i) && base == BaseCharged(i);
    var baseWaived := i.rate.base > 0 && base == 0;
    if i.cold {
      base := base + i.rate.surcharge;
    }
    var remaining := None;
    if i.rate.freeOver.Some? && !baseWaived {
      var r := i.rate.freeOver.value - i.subtotal;
      if r > 0 {
        remaining := Some(r);
      }
    }

    var discount := member + promo;
    var tax := ContainedVAT(i.subtotal - discount);
    var total := i.subtotal + base - discount;
    b := Breakdown(Totals(i.subtotal, base, discount, tax, total, member, promo),
                   i.currency, firstDeliveryFree, baseWaived, remaining, promoId, issue);
  }

  // ----- Ranges the schema and the admin form guarantee -----------------------

  predicate SoundRate(r: ShippingRate) {
    r.base >= 0 && r.surcharge >= 0 && (r.freeOver.Some? ==> r.freeOver.value > 0)
  }

  predicate SoundPromo(p: Promo) {
    && (p.kind.Percent? ==> 1 <= p.percent <= 100)
    && (forall c | c in p.values :: p.values[c].amount.Some? ==> p.values[c].amount.value > 0)
  }

  predicate Sound(i: PriceInput) {
    && i.subtotal >= 0
    && i.prior >= 0
    && SoundRate(i.rate)
    && (i.promo.Some? ==> SoundPromo(i.promo.value))
  }

  /** Every tariff the table takes is within these ranges, whatever the basket and the customer. */
  lemma TariffIsSound(rate: ShippingRate, currency: Currency, subtotal: nat, cold: bool, prior: nat, now: int)
    requires rate.base >= 0 && rate.surcharge >= 0 && (rate.freeOver == None || rate.freeOver.value >= 1)
    ensures Sound(PriceInput(currency, subtotal, cold, rate, prior, None, now))
  {
  }

  // ----- Rounding -------------------------------------------------------------

  /** Half-up rounding: the result is the nearest minor unit, ties going up. */
  lemma PercentOfNearest(amount: int, pct: int)
    requires amount >= 0 && 0 <= pct <= 100
    ensures amount * pct - 50 < 100 * PercentOf(amount, pct) <= amount * pct + 50
    ensures 0 <= PercentOf(amount, pct) <= amount
  {
    assert 0 <= amount * pct <= amount * 100;
  }

  /** The tax is the nearest unit to one sixth of the amount, ties going up, and lies within it. */
  lemma ContainedVATNearest(amount: int)
    requires amount >= 0
    ensures amount - 3 < 6 * ContainedVAT(amount) <= amount + 3
    ensures 0 <= ContainedVAT(amount) <= amount
  {
  }

  // ----- What a code is good for, and what it takes off ------------------------

  /** The instants a code is valid at: both bounds count. */
  predicate InWindow(p: Promo, now: int) {
    (p.startsAt.None? || p.startsAt.value <= now) && (p.endsAt.None? || now <= p.endsAt.value)
  }

  /** Somebody may still redeem it, and this shopper has not. */
  predicate Redeemable(p: Promo) {
    !p.usedByShopper && (p.maxRedemptions.None? || p.redemptions < p.maxRedemptions.value)
  }

  /** The basket is big enough for it, and a sum of money is named in the basket's market. */
  predicate Suits(p: Promo, currency: Currency, subtotal: int) {
    && (p.kind.Fixed? ==> currency in p.values && p.values[currency].amount.Some?)
    && (currency in p.values && p.values[currency].minSubtotal.Some? ==> subtotal >= p.values[currency].minSubtotal.value)
  }

  /** A code applies exactly when it is switched on, within its window, redeemable, and suits the basket. */
  lemma NoIssueIff(p: Promo, now: int, currency: Currency, subtotal: int)
    ensures IssueOf(p, now, currency, subtotal) == NoIssue <==>
              p.active && InWindow(p, now) && Redeemable(p) && Suits(p, currency, subtotal)
  {
  }

  /** What the shopper is told: existence first, then time, then their own use, then the cap, then the basket. */
  lemma FirstIssueIsTold(p: Promo, now: int, currency: Currency, subtotal: int)
    ensures
      var issue := IssueOf(p, now, currency, subtotal);
      var begun := p.active && (p.startsAt.Some? ==> p.startsAt.value <= now);
      && (issue == UnknownCode <==> !begun)
      && (issue == Expired <==> begun && !InWindow(p, now))
      && (issue == AlreadyUsed <==> p.active && InWindow(p, now) && p.usedByShopper)
      && (issue == Exhausted <==> p.active && InWindow(p, now) && !p.usedByShopper && !Redeemable(p))
      && (issue == NotInMarket || issue == BelowMinimum <==>
            p.active && InWindow(p, now) && Redeemable(p) && !Suits(p, currency, subtotal))
      && (issue == NotInMarket ==> p.kind.Fixed? && !(currency in p.values && p.values[currency].amount.Some?))
      && (issue == BelowMinimum ==> currency in p.values && p.values[currency].minSubtotal.Some?
                                     && subtotal < p.values[currency].minSubtotal.value
                                     && (p.kind.Fixed? ==> p.values[currency].amount.Some?))
  {
  }

  /** A code that does not apply, or ships free, takes nothing off the goods. */
  lemma NothingTakenOff(i: PriceInput)
    requires Sound(i)
    requires i.promo.None? || Quote(i).issue != NoIssue || i.promo.value.kind.FreeShipping?
    ensures Quote(i).totals.promo == 0
  {
    DiscountBounds(i);
  }

  /** A fixed code takes its amount off, or what the member discount left. */
  lemma FixedTakesOff(i: PriceInput)
    requires i.promo.Some? && i.promo.value.kind.Fixed? && Quote(i).issue == NoIssue
    ensures i.currency in i.promo.value.values && i.promo.value.values[i.currency].amount.Some?
    ensures Quote(i).totals.promo ==
            Min(i.promo.value.values[i.currency].amount.value, i.subtotal - Quote(i).totals.member)
  {
    NoIssueIff(i.promo.value, i.now, i.currency, i.subtotal);
  }

  /** A percent code takes that share of the shelf subtotal off, to the nearest unit, or what the member discount left. */
  lemma PercentTakesOff(i: PriceInput)
    requires Sound(i) && i.promo.Some? && i.promo.value.kind.Percent? && Quote(i).issue == NoIssue
    ensures exists share ::
              && i.subtotal * i.promo.value.percent - 50 < 100 * share <= i.subtotal * i.promo.value.percent + 50
              && Quote(i).totals.promo == Min(share, i.subtotal - Quote(i).totals.member)
  {
    PercentOfNearest(i.subtotal, i.promo.value.percent);
    var share := PercentOf(i.subtotal, i.promo.value.percent);
    assert Quote(i).totals.promo == Min(share, i.subtotal - Quote(i).totals.member);
  }

  /** From the second order on eight per cent of the shelf subtotal, to the nearest unit; on the first nothing. */
  lemma MemberTakesOff(i: PriceInput)
    requires Sound(i)
    ensures i.prior == 0 ==> Quote(i).totals.member == 0 && Quote(i).firstDeliveryFree
    ensures i.prior >= 1 ==> i.subtotal * 8 - 50 < 100 * Quote(i).totals.member <= i.subtotal * 8 + 50
                             && !Quote(i).firstDeliveryFree
  {
    PercentOfNearest(i.subtotal, MEMBER_PERCENT);
  }

  /** Any of three promises waives the base rate; the cold-chain surcharge is charged all the same. */
  lemma BaseIsWaivedIff(i: PriceInput)
    ensures
      var b := Quote(i);
      var promised :=
        || i.prior == 0
        || (i.rate.freeOver.Some? && i.subtotal >= i.rate.freeOver.value)
        || (i.promo.Some? && b.issue == NoIssue && i.promo.value.kind.FreeShipping?);
      && b.totals.shipping == (if promised then 0 else i.rate.base) + (if i.cold then i.rate.surcharge else 0)
      && (b.baseWaived <==> promised && i.rate.base > 0)
      && (b.remaining.Some? <==> !b.baseWaived && i.rate.freeOver.Some? && i.subtotal < i.rate.freeOver.value)
      && (b.remaining.Some? ==> i.subtotal + b.remaining.value == i.rate.freeOver.value)
      && b.currency == i.currency
      && b.promoId == (if i.promo.Some? then Some(i.promo.value.id) else None)
      && (b.issue != NoIssue ==> i.promo.Some?)
  {
  }

  /** The tax is a sixth, to the nearest unit, of what is paid for the goods. */
  lemma TaxIsASixth(i: PriceInput)
    requires Sound(i)
    ensures
      var t := Quote(i).totals;
      t.subtotal - t.discount - 3 < 6 * t.tax <= t.subtotal - t.discount + 3
  {
    DiscountBounds(i);
    ContainedVATNearest(Payable(i));
  }

  // ----- The money invariants -------------------------------------------------

  lemma DiscountBounds(i: PriceInput)
    requires Sound(i)
    ensures 0 <= MemberDiscount(i) <= i.subtotal
    ensures 0 <= PromoDiscount(i) <= i.subtotal - MemberDiscount(i)
  {
    PercentOfNearest(i.subtotal, MEMBER_PERCENT);
    if Applies(i) && i.promo.value.kind.Percent? {
      PercentOfNearest(i.subtotal, i.promo.value.percent);
    }
  }

  /** Every quote balances, keeps the surcharge, and taxes only what is paid for the goods. */
  lemma QuoteBalances(i: PriceInput)
    requires Sound(i)
    ensures
      var b := Quote(i); var t := b.totals;
      && t.subtotal == i.subtotal
      && t.member + t.promo == t.discount
      && 0 <= t.member && 0 <= t.promo && t.discount <= t.subtotal
      && t.total == t.subtotal + t.shipping - t.discount
      && t.total >= t.shipping >= (if i.cold then i.rate.surcharge else 0)
      && (b.baseWaived ==> t.shipping == if i.cold then i.rate.surcharge else 0)
      && (!b.baseWaived ==> t.shipping == i.rate.base + if i.cold then i.rate.surcharge else 0)
      && 0 <= t.tax <= t.subtotal - t.discount
      && (b.firstDeliveryFree ==> t.member == 0)
  {
    DiscountBounds(i);
    ContainedVATNearest(Payable(i));
  }

  /** A code can only help: with it removed the total is never lower. */
  lemma PromoNeverRaisesTotal(i: PriceInput)
    requires Sound(i)
    ensures Quote(i).totals.total <= Quote(i.(promo := None)).totals.total
    ensures Quote(i).issue != NoIssue ==> Quote(i).totals == Quote(i.(promo := None)).totals
  {
    DiscountBounds(i);
  }

  /** For a member whose code does not ship free, the quote agrees with ShippingFor. */
  lemma ShippingAgrees(i: PriceInput)
    ensures i.prior != 0 && !(Applies(i) && i.promo.value.kind.FreeShipping?) ==>
              Quote(i).totals.shipping == ShippingFor(i.rate, i.subtotal, i.cold)
    ensures SoundRate(i.rate) ==>
              Quote(i).totals.shipping <= ShippingFor(i.rate, i.subtotal, i.cold)
  {
  }

  // ----- The free-shipping gap ------------------------------------------------

  function Raised(i: PriceInput, d: int): PriceInput {
    i.(subtotal := i.subtotal + d)
  }

  /**
   * While a gap is shown and a base rate exists, raising the basket waives the
   * base exactly when the raise reaches the gap, or when the bigger basket is
   * what makes a free-shipping code apply.
   */
  lemma GapIsExact(i: PriceInput, d: int)
    requires Sound(i) && Gap(i).Some? && i.rate.base > 0 && d >= 0
    ensures BaseWaived(Raised(i, d)) <==>
              d >= Gap(i).value
              || (Applies(Raised(i, d)) && i.promo.value.kind.FreeShipping?)
    ensures BaseWaived(Raised(i, Gap(i).value))
    ensures i.promo.None? ==> (BaseWaived(Raised(i, d)) <==> d >= Gap(i).value)
  {
  }

  /** Where the base rate is zero a gap may be shown that no basket ever closes. */
  lemma GapWithoutBase()
    ensures
      var i := PriceInput(USD, 500, false, ShippingRate(0, 600, Some(7000)), 1, None, 0);
      Sound(i) && Gap(i) == Some(6500) && !BaseWaived(Raised(i, 6500))
  {
  }

  /** Reaching the reported gap waives the base if and only if there is a base to waive. */
  lemma GapWaivesIff(i: PriceInput)
    requires Sound(i) && Gap(i).Some?
    ensures BaseWaived(Raised(i, Gap(i).value)) <==> i.rate.base > 0
  {
  }

  // ----- Raising the basket under a percent code -------------------------------

  /** One percentage of a bigger amount: it grows, by at most its share rounded up. */
  lemma PercentOfGrowth(s: int, d: int, pct: int)
    requires s >= 0 && d >= 0 && 0 <= pct <= 100
    ensures PercentOf(s, pct) <= PercentOf(s + d, pct)
    ensures 100 * (PercentOf(s + d, pct) - PercentOf(s, pct)) <= d * pct + 99
  {
    assert (s + d) * pct == s * pct + d * pct;
    assert s * pct >= 0 && d * pct >= 0;
  }

  /** From 92 per cent up, a member's two discounts swallow the whole basket. */
  lemma DeepCodeTakesAll(s: int, pct: int)
    requires s >= 0 && 92 <= pct <= 100
    ensures PercentOf(s, MEMBER_PERCENT) + PercentOf(s, pct) >= s
  {
    var share := s * pct;
    assert share >= s * 92;
    assert PercentOf(s, pct) == TruncDiv(share + 50, 100);
  }

  lemma ShareAtMost(d: int, pct: int, most: int)
    requires d >= 0 && pct <= most
    ensures d * pct <= d * most
  {
  }

  lemma TwoShares(d: int, member: int, promo: int, share: int)
    requires d >= 0 && share <= d * 91
    requires 100 * member <= d * 8 + 99 && 100 * promo <= share + 99
    ensures member + promo <= d + 1
  {
  }

  /** Below 92 per cent the two discounts never grow by more than the raise and one unit. */
  lemma ShallowCodeGrowth(s: int, d: int, pct: int)
    requires s >= 0 && d >= 0 && 0 <= pct < 92
    ensures PercentOf(s + d, MEMBER_PERCENT) - PercentOf(s, MEMBER_PERCENT)
            + PercentOf(s + d, pct) - PercentOf(s, pct) <= d + 1
  {
    var member := PercentOf(s + d, MEMBER_PERCENT) - PercentOf(s, MEMBER_PERCENT);
    var promo := PercentOf(s + d, pct) - PercentOf(s, pct);
    PercentOfGrowth(s, d, MEMBER_PERCENT);
    PercentOfGrowth(s, d, pct);
    ShareAtMost(d, pct, 91);
    TwoShares(d, member, promo, d * pct);
  }

  /** A code that applies keeps applying to every bigger basket at the same instant. */
  lemma AppliesToBigger(i: PriceInput, d: int)
    requires Applies(i) && d >= 0
    ensures Applies(Raised(i, d))
  {
  }

  /** What both percentages leave of an amount, before the clamp at zero. */
  function Left(s: int, member: bool, pct: int): int {
    s - (if member then PercentOf(s, MEMBER_PERCENT) else 0) - PercentOf(s, pct)
  }

  lemma OneShare(d: int, promo: int, share: int)
    requires share <= d * 100 && 100 * promo <= share + 99
    ensures promo <= d
  {
  }

  /** One percentage alone never grows by more than the amount does. */
  lemma PercentNeverOvertakes(s: int, d: int, pct: int)
    requires s >= 0 && d >= 0 && 0 <= pct <= 100
    ensures PercentOf(s + d, pct) - PercentOf(s, pct) <= d
  {
    PercentOfGrowth(s, d, pct);
    ShareAtMost(d, pct, 100);
    OneShare(d, PercentOf(s + d, pct) - PercentOf(s, pct), d * pct);
  }

  lemma LeftAlmostMonotone(s: int, d: int, member: bool, pct: int)
    requires s >= 0 && d >= 0 && 1 <= pct <= 100
    ensures Left(s + d, member, pct) >= Left(s, member, pct) - 1 || Left(s, member, pct) <= 0
    ensures !member ==> Left(s + d, member, pct) >= Left(s, member, pct)
  {
    if !member {
      PercentNeverOvertakes(s, d, pct);
    } else if pct >= 92 {
      DeepCodeTakesAll(s, pct);
    } else {
      ShallowCodeGrowth(s, d, pct);
    }
  }

  /** Under a percent code the goods payable are what both percentages leave, never below zero. */
  lemma PayableOfPercent(i: PriceInput)
    requires Sound(i) && Applies(i) && i.promo.value.kind.Percent?
    ensures
      var left := Left(i.subtotal, i.prior >= 1, i.promo.value.percent);
      Payable(i) == if left >= 0 then left else 0
  {
  }

  /**
   * With a percent code that applies, a bigger basket never lowers the goods
   * payable by more than one minor unit.
   */
  lemma PayableAlmostMonotone(i: PriceInput, d: int)
    requires Sound(i) && d >= 0
    requires Applies(i) && i.promo.value.kind.Percent?
    ensures Payable(Raised(i, d)) >= Payable(i) - 1
    ensures i.prior == 0 ==> Payable(Raised(i, d)) >= Payable(i)
  {
    AppliesToBigger(i, d);
    PayableOfPercent(i);
    PayableOfPercent(Raised(i, d));
    LeftAlmostMonotone(i.subtotal, d, i.prior >= 1, i.promo.value.percent);
  }

  /** The bound is reached: 8 per cent twice, six units against seven. */
  lemma PayableDropIsReached()
    ensures
      var code := Promo(1, [], Percent, 8, None, None, None, true, 0, false, map[]);
      var i := PriceInput(USD, 6, false, ShippingRate(400, 600, None), 1, Some(code), 0);
      Sound(i) && Applies(i) && Applies(Raised(i, 1)) && Payable(Raised(i, 1)) == Payable(i) - 1
  {
    assert PercentOf(6, 8) == 0 && PercentOf(7, 8) == 1;
    var code := Promo(1, [], Percent, 8, None, None, None, true, 0, false, map[]);
    var i := PriceInput(USD, 6, false, ShippingRate(400, 600, None), 1, Some(code), 0);
    assert Applies(i) && Applies(Raised(i, 1));
  }
}
