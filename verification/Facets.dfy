/**
 * The shop sidebar against the product grid: one tagged pass over the visible
 * products must count what the grid's own query would
 * (backend/internal/store/products.go).
 *
 * Rows with a primary key are kept in maps by it; the many-to-many table is a
 * list of rows, because the facet query counts its rows.
 */
module Facets {
  import opened Wrappers

  /** `prices` are the product's variant prices in the market being read. */
  datatype Product = Product(category: nat, active: bool, prices: seq<int>)

  datatype Named = Named(id: nat, slug: string)

  datatype Link = Link(product: nat, benefit: nat)

  /** `hits` are the products the search text matches; categories and benefits are in display order. */
  datatype Catalog = Catalog(
    products: map<nat, Product>,
    categories: seq<Named>,
    benefits: seq<Named>,
    links: seq<Link>,
    hits: set<nat>)

  datatype Filter = Filter(
    category: string,
    includeInactive: bool,
    search: string,
    benefits: seq<string>,
    floor: Option<int>,
    ceiling: Option<int>)

  // ----- The four predicates -----------------------------------------------------------

  predicate MatchBase(c: Catalog, f: Filter, id: nat)
    requires id in c.products
  {
    (c.products[id].active || f.includeInactive) && (f.search == "" || id in c.hits)
  }

  predicate MatchCategory(c: Catalog, f: Filter, id: nat)
    requires id in c.products
  {
    f.category == ""
    || exists k | 0 <= k < |c.categories| :: c.categories[k] == Named(c.products[id].category, f.category)
  }

  predicate Has(c: Catalog, id: nat, slug: string) {
    exists k | 0 <= k < |c.benefits| :: c.benefits[k].slug == slug && Link(id, c.benefits[k].id) in c.links
  }

  predicate MatchBenefit(c: Catalog, f: Filter, id: nat) {
    f.benefits == [] || exists k | 0 <= k < |f.benefits| :: Has(c, id, f.benefits[k])
  }

  predicate InBand(f: Filter, price: int) {
    (f.floor.None? || price >= f.floor.value) && (f.ceiling.None? || price <= f.ceiling.value)
  }

  /** Without a price filter even a product with no priced variant is listed. */
  predicate MatchPrice(c: Catalog, f: Filter, id: nat)
    requires id in c.products
  {
    (f.floor.None? && f.ceiling.None?)
    || exists k | 0 <= k < |c.products[id].prices| :: InBand(f, c.products[id].prices[k])
  }

  predicate Listed(c: Catalog, f: Filter, id: nat) {
    id in c.products && MatchBase(c, f, id) && MatchCategory(c, f, id) && MatchBenefit(c, f, id) && MatchPrice(c, f, id)
  }

  function ListedSet(c: Catalog, f: Filter): set<nat> {
    set id | id in c.products && Listed(c, f, id)
  }

  /** The grid's own count query. */
  function ListTotal(c: Catalog, f: Filter): nat {
    |ListedSet(c, f)|
  }

  // ----- The facet query -----------------------------------------------------------------

  /** A visible product, tagged with what the other filters say instead of being filtered by them. */
  datatype Tagged = Tagged(category: nat, prices: seq<int>, okCategory: bool, okBenefit: bool, okPrice: bool)

  function Base(c: Catalog, f: Filter): map<nat, Tagged> {
    map id | id in c.products && MatchBase(c, f, id) ::
      Tagged(c.products[id].category, c.products[id].prices, MatchCategory(c, f, id), MatchBenefit(c, f, id),
             MatchPrice(c, f, id))
  }

  function CategorySet(base: map<nat, Tagged>, category: nat): set<nat> {
    set id | id in base && base[id].category == category && base[id].okBenefit && base[id].okPrice
  }

  function CategoryCount(base: map<nat, Tagged>, category: nat): nat {
    |CategorySet(base, category)|
  }

  predicate AnyVisible(base: map<nat, Tagged>, category: nat) {
    exists id :: id in base && base[id].category == category
  }

  predicate CountedLink(base: map<nat, Tagged>, l: Link, benefit: nat) {
    l.benefit == benefit && l.product in base && base[l.product].okCategory && base[l.product].okPrice
  }

  /** Rows of the many-to-many table that join to a visible product. */
  function BenefitCount(base: map<nat, Tagged>, links: seq<Link>, benefit: nat): nat {
    if links == [] then 0
    else
      var last := links[|links| - 1];
      BenefitCount(base, links[..|links| - 1], benefit) + if CountedLink(base, last, benefit) then 1 else 0
  }

  predicate AnyLink(base: map<nat, Tagged>, links: seq<Link>, benefit: nat) {
    exists k | 0 <= k < |links| :: links[k].benefit == benefit && links[k].product in base
  }

  function Matching(base: map<nat, Tagged>): set<nat> {
    set id | id in base && base[id].okBenefit && base[id].okPrice
  }

  function SummaryCount(base: map<nat, Tagged>): nat {
    |Matching(base)|
  }

  datatype Row =
    | CategoryRow(slug: string, n: nat)
    | BenefitRow(slug: string, n: nat)
    | SummaryRow(total: nat, min: Option<int>, max: Option<int>)

  datatype FacetCount = FacetCount(slug: string, count: nat)

  datatype Result = Result(categories: seq<FacetCount>, benefits: seq<FacetCount>, total: nat, min: int, max: int)

  // ----- Keys -------------------------------------------------------------------------------

  ghost predicate DistinctNames(names: seq<Named>) {
    && (forall i, j | 0 <= i < j < |names| :: names[i].id != names[j].id && names[i].slug != names[j].slug)
    && (forall i | 0 <= i < |names| :: names[i].slug != "")
  }

  /** What the schema guarantees: unique names, unique links, and a category for every product. */
  ghost predicate Keyed(c: Catalog) {
    && DistinctNames(c.categories)
    && DistinctNames(c.benefits)
    && (forall i, j | 0 <= i < j < |c.links| :: c.links[i] != c.links[j])
    && (forall id | id in c.products ::
          exists k | 0 <= k < |c.categories| :: c.categories[k].id == c.products[id].category)
  }

  // ----- What each filter of the grid does -------------------------------------------------------

  /** Without filters, and with the inactive shown, everything is listed. */
  lemma NoFilterListsAll(c: Catalog)
    ensures ListedSet(c, Filter("", true, "", [], None, None)) == c.products.Keys
  {
  }

  /** Unless the inactive are asked for, only the active are listed. */
  lemma InactiveFilter(c: Catalog, f: Filter, id: nat)
    ensures id in ListedSet(c, f.(includeInactive := false)) <==>
              id in ListedSet(c, f.(includeInactive := true)) && c.products[id].active
  {
  }

  /** A search lists what its text matches, of what would be listed without it. */
  lemma SearchFilter(c: Catalog, f: Filter, id: nat)
    requires f.search != ""
    ensures id in ListedSet(c, f) <==> id in ListedSet(c, f.(search := "")) && id in c.hits
  {
  }

  /** A category lists its own products, of what would be listed without it. */
  lemma CategoryFilter(c: Catalog, f: Filter, id: nat)
    requires f.category != ""
    ensures id in ListedSet(c, f) <==>
              && id in ListedSet(c, f.(category := ""))
              && exists k | 0 <= k < |c.categories| ::
                   c.categories[k].slug == f.category && c.categories[k].id == c.products[id].category
  {
    assert forall k | 0 <= k < |c.categories| && id in c.products ::
        c.categories[k] == Named(c.products[id].category, f.category) <==>
          c.categories[k].slug == f.category && c.categories[k].id == c.products[id].category;
  }

  /** A price band lists what has a price within it, both ends counting. */
  lemma PriceFilter(c: Catalog, f: Filter, id: nat)
    requires f.floor.Some? || f.ceiling.Some?
    ensures id in ListedSet(c, f) <==>
              && id in ListedSet(c, f.(floor := None, ceiling := None))
              && exists price | price in c.products[id].prices ::
                   (f.floor.Some? ==> f.floor.value <= price) && (f.ceiling.Some? ==> price <= f.ceiling.value)
  {
    if id in c.products {
      var prices := c.products[id].prices;
      assert forall k | 0 <= k < |prices| :: prices[k] in prices;
      assert forall k | 0 <= k < |prices| ::
          InBand(f, prices[k]) <==>
            (f.floor.Some? ==> f.floor.value <= prices[k]) && (f.ceiling.Some? ==> prices[k] <= f.ceiling.value);
    }
  }

  /** One benefit lists what is linked to it, of what would be listed without it. */
  lemma BenefitFilter(c: Catalog, f: Filter, slug: string, id: nat)
    ensures id in ListedSet(c, f.(benefits := [slug])) <==>
              && id in ListedSet(c, f.(benefits := []))
              && exists l | l in c.links :: l.product == id && WornAs(c, l.benefit, slug)
  {
    var one := f.(benefits := [slug]);
    assert one.benefits[0] == slug;
    if k :| 0 <= k < |c.benefits| && c.benefits[k].slug == slug && Link(id, c.benefits[k].id) in c.links {
      assert WornAs(c, Link(id, c.benefits[k].id).benefit, slug);
    }
    if l :| l in c.links && l.product == id && WornAs(c, l.benefit, slug) {
      var k :| 0 <= k < |c.benefits| && c.benefits[k] == Named(l.benefit, slug);
      assert Link(id, c.benefits[k].id) == l;
    }
  }

  /** The benefit of this number goes by this name. */
  predicate WornAs(c: Catalog, benefit: nat, slug: string) {
    exists k | 0 <= k < |c.benefits| :: c.benefits[k] == Named(benefit, slug)
  }

  /** What is listed for one or another of the benefits that are ticked. */
  function ListedForAny(c: Catalog, f: Filter): set<nat> {
    set id | id in c.products && exists k | 0 <= k < |f.benefits| :: id in ListedSet(c, f.(benefits := [f.benefits[k]]))
  }

  /** Ticking several benefits lists what any one of them would. */
  lemma AnyBenefitWillDo(c: Catalog, f: Filter)
    requires f.benefits != []
    ensures ListedSet(c, f) == ListedForAny(c, f)
  {
    forall id | id in c.products
      ensures Listed(c, f, id) <==> exists k | 0 <= k < |f.benefits| :: id in ListedSet(c, f.(benefits := [f.benefits[k]]))
    {
      forall k | 0 <= k < |f.benefits|
        ensures id in ListedSet(c, f.(benefits := [f.benefits[k]])) <==>
                  Listed(c, f.(benefits := []), id) && Has(c, id, f.benefits[k])
      {
        OneBenefit(c, f, f.benefits[k], id);
      }
    }
  }

  lemma OneBenefit(c: Catalog, f: Filter, slug: string, id: nat)
    ensures Listed(c, f.(benefits := [slug]), id) <==> Listed(c, f.(benefits := []), id) && Has(c, id, slug)
  {
    var one := f.(benefits := [slug]);
    assert one.benefits[0] == slug;
  }

  // ----- Each group agrees with the grid -------------------------------------------------------

  lemma CategoryMatches(c: Catalog, f: Filter, k: nat, id: nat)
    requires Keyed(c) && k < |c.categories| && id in c.products
    ensures MatchCategory(c, f.(category := c.categories[k].slug), id) <==>
              c.products[id].category == c.categories[k].id
  {
    var slug := c.categories[k].slug;
    if c.products[id].category == c.categories[k].id {
      assert c.categories[k] == Named(c.products[id].category, slug);
    }
  }

  /** Lifting or setting the category filter leaves the other tags alone. */
  lemma TagsIgnoreCategory(c: Catalog, f: Filter, category: string, id: nat)
    requires id in c.products
    ensures Listed(c, f.(category := category), id) <==>
              && id in Base(c, f)
              && MatchCategory(c, f.(category := category), id)
              && Base(c, f)[id].okBenefit && Base(c, f)[id].okPrice
  {
  }

  /** A category's count is what the grid shows once that category alone is picked. */
  lemma CategoryAgrees(c: Catalog, f: Filter, k: nat)
    requires Keyed(c) && k < |c.categories|
    ensures CategoryCount(Base(c, f), c.categories[k].id) == ListTotal(c, f.(category := c.categories[k].slug))
  {
    var base, f' := Base(c, f), f.(category := c.categories[k].slug);
    forall id | id in c.products
      ensures id in CategorySet(base, c.categories[k].id) <==> id in ListedSet(c, f')
    {
      CategoryMatches(c, f, k, id);
      TagsIgnoreCategory(c, f, c.categories[k].slug, id);
    }
    assert CategorySet(base, c.categories[k].id) == ListedSet(c, f');
  }

  predicate LinkedIn(base: map<nat, Tagged>, links: seq<Link>, benefit: nat, product: nat) {
    product in base && base[product].okCategory && base[product].okPrice && Link(product, benefit) in links
  }

  function LinkedProducts(base: map<nat, Tagged>, links: seq<Link>, benefit: nat): set<nat> {
    set p | p in base && LinkedIn(base, links, benefit, p)
  }

  /** Unique links: counting rows is counting products. */
  lemma {:induction false} RowsAreProducts(base: map<nat, Tagged>, links: seq<Link>, benefit: nat)
    requires forall i, j | 0 <= i < j < |links| :: links[i] != links[j]
    ensures BenefitCount(base, links, benefit) == |LinkedProducts(base, links, benefit)|
  {
    if links == [] {
      assert LinkedProducts(base, links, benefit) == {};
    } else {
      var front, last := links[..|links| - 1], links[|links| - 1];
      RowsAreProducts(base, front, benefit);
      assert links == front + [last] && last !in front;
      LinkedSnoc(base, front, last, benefit);
      assert CountedLink(base, last, benefit) ==> last.product !in LinkedProducts(base, front, benefit);
    }
  }

  lemma LinkedSnoc(base: map<nat, Tagged>, links: seq<Link>, last: Link, benefit: nat)
    ensures LinkedProducts(base, links + [last], benefit) ==
            LinkedProducts(base, links, benefit) + if CountedLink(base, last, benefit) then {last.product} else {}
  {
    forall p | p in base
      ensures LinkedIn(base, links + [last], benefit, p) <==>
              LinkedIn(base, links, benefit, p) || (CountedLink(base, last, benefit) && p == last.product)
    {
      assert Link(p, benefit) in links + [last] <==> Link(p, benefit) in links || Link(p, benefit) == last;
    }
  }

  /** Two rows for one pair would count a product twice. */
  lemma RowsNeedUniqueLinks()
    ensures
      var base := map[1 := Tagged(1, [], true, true, true)];
      var links := [Link(1, 5), Link(1, 5)];
      BenefitCount(base, links, 5) == 2 && LinkedProducts(base, links, 5) == {1}
  {
    var base := map[1 := Tagged(1, [], true, true, true)];
    var links := [Link(1, 5), Link(1, 5)];
    assert links[..1] == [Link(1, 5)] && links[..1][..0] == [];
    assert LinkedIn(base, links, 5, 1);
  }

  lemma HasMeansLinked(c: Catalog, k: nat, id: nat)
    requires Keyed(c) && k < |c.benefits|
    ensures Has(c, id, c.benefits[k].slug) <==> Link(id, c.benefits[k].id) in c.links
  {
  }

  /** A benefit's count is what the grid shows once that benefit alone is picked. */
  lemma BenefitAgrees(c: Catalog, f: Filter, k: nat)
    requires Keyed(c) && k < |c.benefits|
    ensures BenefitCount(Base(c, f), c.links, c.benefits[k].id) == ListTotal(c, f.(benefits := [c.benefits[k].slug]))
  {
    var base, b := Base(c, f), c.benefits[k].id;
    var f' := f.(benefits := [c.benefits[k].slug]);
    RowsAreProducts(base, c.links, b);
    forall id | id in c.products
      ensures id in LinkedProducts(base, c.links, b) <==> id in ListedSet(c, f')
    {
      HasMeansLinked(c, k, id);
      TagsIgnoreBenefit(c, f, c.benefits[k].slug, id);
    }
    assert LinkedProducts(base, c.links, b) == ListedSet(c, f');
  }

  /** Picking one benefit leaves the other tags alone. */
  lemma TagsIgnoreBenefit(c: Catalog, f: Filter, slug: string, id: nat)
    requires id in c.products
    ensures Listed(c, f.(benefits := [slug]), id) <==>
              && id in Base(c, f)
              && Has(c, id, slug)
              && Base(c, f)[id].okCategory && Base(c, f)[id].okPrice
  {
    var f' := f.(benefits := [slug]);
    assert f'.benefits[0] == slug;
    assert MatchBenefit(c, f', id) <==> Has(c, id, slug);
  }

  /** The total is what the grid shows with the category filter lifted. */
  lemma SummaryAgrees(c: Catalog, f: Filter)
    ensures SummaryCount(Base(c, f)) == ListTotal(c, f.(category := ""))
  {
    forall id | id in c.products
      ensures id in Matching(Base(c, f)) <==> id in ListedSet(c, f.(category := ""))
    {
      TagsIgnoreCategory(c, f, "", id);
    }
    assert Matching(Base(c, f)) == ListedSet(c, f.(category := ""));
  }

  // ----- The category counts add up ---------------------------------------------------------

  function SumCounts(base: map<nat, Tagged>, categories: seq<Named>): nat {
    if categories == [] then 0
    else
      SumCounts(base, categories[..|categories| - 1]) + CategoryCount(base, categories[|categories| - 1].id)
  }

  predicate Among(categories: seq<Named>, id: nat) {
    exists k | 0 <= k < |categories| :: categories[k].id == id
  }

  function MatchingIn(base: map<nat, Tagged>, categories: seq<Named>): set<nat> {
    set id | id in Matching(base) && Among(categories, base[id].category)
  }

  lemma AmongSnoc(front: seq<Named>, last: Named, id: nat)
    ensures Among(front + [last], id) <==> Among(front, id) || last.id == id
  {
    var all := front + [last];
    assert all[|front|] == last;
    if Among(front, id) {
      var k :| 0 <= k < |front| && front[k].id == id;
      assert all[k].id == id;
    }
  }

  lemma {:induction false} CountsPartition(base: map<nat, Tagged>, categories: seq<Named>)
    requires forall i, j | 0 <= i < j < |categories| :: categories[i].id != categories[j].id
    ensures SumCounts(base, categories) == |MatchingIn(base, categories)|
  {
    if categories == [] {
      assert MatchingIn(base, categories) == {};
    } else {
      var front, last := categories[..|categories| - 1], categories[|categories| - 1];
      CountsPartition(base, front);
      assert categories == front + [last];
      var before, here := MatchingIn(base, front), CategorySet(base, last.id);
      forall id | id in base
        ensures id in MatchingIn(base, categories) <==> id in before || id in here
      {
        AmongSnoc(front, last, base[id].category);
      }
      assert MatchingIn(base, categories) == before + here;
      assert before !! here;
    }
  }

  /** Every visible product is in exactly one category, so the counts sum to the total. */
  lemma CategoriesSumToTotal(c: Catalog, f: Filter)
    requires Keyed(c)
    ensures SumCounts(Base(c, f), c.categories) == SummaryCount(Base(c, f))
  {
    var base := Base(c, f);
    CountsPartition(base, c.categories);
    forall id | id in base
      ensures Among(c.categories, base[id].category)
    {
      assert id in c.products;
    }
    assert MatchingIn(base, c.categories) == Matching(base);
  }

  // ----- The slider's ends --------------------------------------------------------------------

  /** A price of a product the other two filters let through. */
  predicate InScope(base: map<nat, Tagged>, id: nat, price: int) {
    id in base && base[id].okCategory && base[id].okBenefit && price in base[id].prices
  }

  ghost predicate Bounds(base: map<nat, Tagged>, lo: Option<int>, hi: Option<int>) {
    && (lo.Some? <==> hi.Some?)
    && (lo.None? ==> forall id, price :: !InScope(base, id, price))
    && (lo.Some? ==>
          && (forall id, price | InScope(base, id, price) :: lo.value <= price <= hi.value)
          && (exists id :: InScope(base, id, lo.value))
          && (exists id :: InScope(base, id, hi.value)))
  }

  /** The running minimum and maximum, ignoring products without a price. */
  method PriceBounds(base: map<nat, Tagged>) returns (lo: Option<int>, hi: Option<int>)
    ensures Bounds(base, lo, hi)
  {
    lo, hi := None, None;
    var todo := base.Keys;
    while todo != {}
      invariant todo <= base.Keys
      invariant lo.Some? <==> hi.Some?
      invariant lo.None? ==> forall id, price | id !in todo :: !InScope(base, id, price)
      invariant lo.Some? ==> forall id, price | id !in todo && InScope(base, id, price) :: lo.value <= price <= hi.value
      invariant lo.Some? ==> (exists id :: InScope(base, id, lo.value)) && exists id :: InScope(base, id, hi.value)
      decreases |todo|
    {
      var id :| id in todo;
      todo := todo - {id};
      if base[id].okCategory && base[id].okBenefit {
        lo, hi := Widen(base, id, lo, hi);
      }
    }
  }

  method Widen(base: map<nat, Tagged>, id: nat, lo0: Option<int>, hi0: Option<int>)
    returns (lo: Option<int>, hi: Option<int>)
    requires id in base && base[id].okCategory && base[id].okBenefit
    requires lo0.Some? <==> hi0.Some?
    requires lo0.Some? ==> (exists x :: InScope(base, x, lo0.value)) && exists x :: InScope(base, x, hi0.value)
    ensures lo.Some? <==> hi.Some?
    ensures lo.Some? ==> (exists x :: InScope(base, x, lo.value)) && exists x :: InScope(base, x, hi.value)
    ensures lo0.Some? ==> lo.Some? && lo.value <= lo0.value && hi0.value <= hi.value
    ensures forall price | price in base[id].prices :: lo.Some? && lo.value <= price <= hi.value
  {
    lo, hi := lo0, hi0;
    var prices := base[id].prices;
    for i := 0 to |prices|
      invariant lo.Some? <==> hi.Some?
      invariant lo.Some? ==> (exists x :: InScope(base, x, lo.value)) && exists x :: InScope(base, x, hi.value)
      invariant lo0.Some? ==> lo.Some? && lo.value <= lo0.value && hi0.value <= hi.value
      invariant forall k | 0 <= k < i :: lo.Some? && lo.value <= prices[k] <= hi.value
    {
      assert InScope(base, id, prices[i]);
      if lo.None? || prices[i] < lo.value {
        lo := Some(prices[i]);
      }
      if hi.None? || prices[i] > hi.value {
        hi := Some(prices[i]);
      }
    }
  }

  function OrZero(bound: Option<int>): int {
    if bound.Some? then bound.value else 0
  }

  /** Setting the slider to its own ends keeps every priced product and drops only the unpriced. */
  lemma BoundsLoseNothing(c: Catalog, f: Filter, lo: Option<int>, hi: Option<int>, id: nat)
    requires Bounds(Base(c, f), lo, hi) && id in c.products
    ensures
      Listed(c, f.(floor := Some(OrZero(lo)), ceiling := Some(OrZero(hi))), id) <==>
        Listed(c, f.(floor := None, ceiling := None), id) && c.products[id].prices != []
  {
    var f' := f.(floor := Some(OrZero(lo)), ceiling := Some(OrZero(hi)));
    var prices := c.products[id].prices;
    if Listed(c, f.(floor := None, ceiling := None), id) && prices != [] {
      assert InScope(Base(c, f), id, prices[0]);
      assert InBand(f', prices[0]);
    }
  }

  lemma ScopeIsListed(c: Catalog, f: Filter, id: nat, price: int)
    ensures InScope(Base(c, f), id, price) <==>
              id in ListedSet(c, f.(floor := None, ceiling := None)) && price in c.products[id].prices
  {
  }

  /** The ends are the least and the greatest price of what is listed with the price filter lifted, or zero. */
  ghost predicate EndsAre(c: Catalog, f: Filter, min: int, max: int) {
    var listed := ListedSet(c, f.(floor := None, ceiling := None));
    && (forall id, price | id in listed && price in c.products[id].prices :: min <= price <= max)
    && ((exists id :: id in listed && c.products[id].prices != []) ==>
          && (exists id :: id in listed && min in c.products[id].prices)
          && (exists id :: id in listed && max in c.products[id].prices))
    && ((forall id | id in listed :: c.products[id].prices == []) ==> min == 0 && max == 0)
  }

  lemma BoundsAreEnds(c: Catalog, f: Filter, lo: Option<int>, hi: Option<int>)
    requires Bounds(Base(c, f), lo, hi)
    ensures EndsAre(c, f, OrZero(lo), OrZero(hi))
  {
    var base, listed := Base(c, f), ListedSet(c, f.(floor := None, ceiling := None));
    forall id, price
      ensures InScope(base, id, price) <==> id in listed && price in c.products[id].prices
    {
      ScopeIsListed(c, f, id, price);
    }
    if id :| id in listed && c.products[id].prices != [] {
      assert InScope(base, id, c.products[id].prices[0]);
    }
  }

  // ----- One round trip ------------------------------------------------------------------------

  function CategoryFacets(base: map<nat, Tagged>, categories: seq<Named>): seq<FacetCount> {
    if categories == [] then []
    else
      var front, last := CategoryFacets(base, categories[..|categories| - 1]), categories[|categories| - 1];
      if AnyVisible(base, last.id) then front + [FacetCount(last.slug, CategoryCount(base, last.id))] else front
  }

  function BenefitFacets(base: map<nat, Tagged>, links: seq<Link>, benefits: seq<Named>): seq<FacetCount> {
    if benefits == [] then []
    else
      var front, last := BenefitFacets(base, links, benefits[..|benefits| - 1]), benefits[|benefits| - 1];
      if AnyLink(base, links, last.id) then front + [FacetCount(last.slug, BenefitCount(base, links, last.id))]
      else front
  }

  function TotalOf(counts: seq<FacetCount>): nat {
    if counts == [] then 0 else TotalOf(counts[..|counts| - 1]) + counts[|counts| - 1].count
  }

  /** A value no visible product has is left out, and would have counted nothing. */
  lemma {:induction false} HiddenCategoriesCountNothing(base: map<nat, Tagged>, categories: seq<Named>)
    ensures TotalOf(CategoryFacets(base, categories)) == SumCounts(base, categories)
  {
    if categories != [] {
      var front, last := categories[..|categories| - 1], categories[|categories| - 1];
      HiddenCategoriesCountNothing(base, front);
      var shown := CategoryFacets(base, front);
      if AnyVisible(base, last.id) {
        var fc := FacetCount(last.slug, CategoryCount(base, last.id));
        assert (shown + [fc])[..|shown|] == shown;
      } else {
        assert CategorySet(base, last.id) == {};
      }
    }
  }

  lemma {:induction false} FacetOfCategory(base: map<nat, Tagged>, categories: seq<Named>, j: nat) returns (k: nat)
    requires j < |CategoryFacets(base, categories)|
    ensures k < |categories|
    ensures CategoryFacets(base, categories)[j] == FacetCount(categories[k].slug, CategoryCount(base, categories[k].id))
  {
    var front := categories[..|categories| - 1];
    if j < |CategoryFacets(base, front)| {
      k := FacetOfCategory(base, front, j);
    } else {
      k := |categories| - 1;
    }
  }

  lemma {:induction false} FacetOfBenefit(base: map<nat, Tagged>, links: seq<Link>, benefits: seq<Named>, j: nat)
    returns (k: nat)
    requires j < |BenefitFacets(base, links, benefits)|
    ensures k < |benefits|
    ensures BenefitFacets(base, links, benefits)[j] ==
            FacetCount(benefits[k].slug, BenefitCount(base, links, benefits[k].id))
  {
    var front := benefits[..|benefits| - 1];
    if j < |BenefitFacets(base, links, front)| {
      k := FacetOfBenefit(base, links, front, j);
    } else {
      k := |benefits| - 1;
    }
  }

  /** Visible to this customer, whatever else is filtered. */
  function Visible(c: Catalog, f: Filter): set<nat> {
    ListedSet(c, f.(category := "", benefits := [], floor := None, ceiling := None))
  }

  lemma BaseIsVisible(c: Catalog, f: Filter)
    ensures Base(c, f).Keys == Visible(c, f)
    ensures forall id | id in Base(c, f) :: Base(c, f)[id].category == c.products[id].category
  {
  }

  /** A facet stands for one of the names, and they stand in the order the names do. */
  lemma {:induction false} CategoryPlaces(base: map<nat, Tagged>, categories: seq<Named>) returns (at: seq<nat>)
    ensures |at| == |CategoryFacets(base, categories)|
    ensures forall j | 0 <= j < |at| ::
              at[j] < |categories| && CategoryFacets(base, categories)[j].slug == categories[at[j]].slug
              && AnyVisible(base, categories[at[j]].id)
    ensures forall i, j | 0 <= i < j < |at| :: at[i] < at[j]
    ensures forall k: nat | k < |categories| && AnyVisible(base, categories[k].id) :: k in at
  {
    if categories == [] {
      at := [];
    } else {
      var n := |categories| - 1;
      at := CategoryPlaces(base, categories[..n]);
      if AnyVisible(base, categories[n].id) {
        at := at + [n];
      }
    }
  }

  lemma {:induction false} BenefitPlaces(base: map<nat, Tagged>, links: seq<Link>, benefits: seq<Named>)
    returns (at: seq<nat>)
    ensures |at| == |BenefitFacets(base, links, benefits)|
    ensures forall j | 0 <= j < |at| ::
              at[j] < |benefits| && BenefitFacets(base, links, benefits)[j].slug == benefits[at[j]].slug
              && AnyLink(base, links, benefits[at[j]].id)
    ensures forall i, j | 0 <= i < j < |at| :: at[i] < at[j]
    ensures forall k: nat | k < |benefits| && AnyLink(base, links, benefits[k].id) :: k in at
  {
    if benefits == [] {
      at := [];
    } else {
      var n := |benefits| - 1;
      at := BenefitPlaces(base, links, benefits[..n]);
      if AnyLink(base, links, benefits[n].id) {
        at := at + [n];
      }
    }
  }

  /** In display order, exactly the names that satisfy p. */
  ghost predicate InDisplayOrder(facets: seq<FacetCount>, names: seq<Named>, p: nat -> bool) {
    exists at: seq<nat> ::
      && |at| == |facets|
      && (forall j | 0 <= j < |at| :: at[j] < |names| && facets[j].slug == names[at[j]].slug && p(names[at[j]].id))
      && (forall i, j | 0 <= i < j < |at| :: at[i] < at[j])
      && (forall k: nat | k < |names| && p(names[k].id) :: k in at)
  }

  function HoldsVisible(c: Catalog, f: Filter): nat -> bool {
    (category: nat) => exists id :: id in Visible(c, f) && c.products[id].category == category
  }

  function WornByVisible(c: Catalog, f: Filter): nat -> bool {
    (benefit: nat) => exists l :: l in c.links && l.benefit == benefit && l.product in Visible(c, f)
  }

  /** The categories and benefits that are shown: those something visible has, filtered out or not. */
  lemma ShownInOrder(c: Catalog, f: Filter)
    ensures InDisplayOrder(CategoryFacets(Base(c, f), c.categories), c.categories, HoldsVisible(c, f))
    ensures InDisplayOrder(BenefitFacets(Base(c, f), c.links, c.benefits), c.benefits, WornByVisible(c, f))
  {
    var base := Base(c, f);
    BaseIsVisible(c, f);
    var at := CategoryPlaces(base, c.categories);
    var bt := BenefitPlaces(base, c.links, c.benefits);
    forall id: nat
      ensures AnyVisible(base, id) <==> HoldsVisible(c, f)(id)
      ensures AnyLink(base, c.links, id) <==> WornByVisible(c, f)(id)
    {
      SeenIff(c, f, id);
    }
  }

  lemma SeenIff(c: Catalog, f: Filter, id: nat)
    ensures AnyVisible(Base(c, f), id) <==> HoldsVisible(c, f)(id)
    ensures AnyLink(Base(c, f), c.links, id) <==> WornByVisible(c, f)(id)
  {
    BaseIsVisible(c, f);
    if k :| 0 <= k < |c.links| && c.links[k].benefit == id && c.links[k].product in Base(c, f) {
      assert c.links[k] in c.links;
    }
    if l :| l in c.links && l.benefit == id && l.product in Visible(c, f) {
      var k :| 0 <= k < |c.links| && c.links[k] == l;
    }
  }

  function BenefitRows(rows: seq<Row>): seq<FacetCount> {
    if rows == [] then []
    else
      var front, last := BenefitRows(rows[..|rows| - 1]), rows[|rows| - 1];
      if last.BenefitRow? then front + [FacetCount(last.slug, last.n)] else front
  }

  function CategoryRows(rows: seq<Row>): seq<FacetCount> {
    if rows == [] then []
    else
      var front, last := CategoryRows(rows[..|rows| - 1]), rows[|rows| - 1];
      if last.CategoryRow? then front + [FacetCount(last.slug, last.n)] else front
  }

  lemma RowsSnoc(rows: seq<Row>, r: Row)
    ensures BenefitRows(rows + [r]) ==
            if r.BenefitRow? then BenefitRows(rows) + [FacetCount(r.slug, r.n)] else BenefitRows(rows)
    ensures CategoryRows(rows + [r]) ==
            if r.CategoryRow? then CategoryRows(rows) + [FacetCount(r.slug, r.n)] else CategoryRows(rows)
  {
    assert (rows + [r])[..|rows|] == rows;
  }

  /** The benefit branch of the union. */
  method BenefitBranch(base: map<nat, Tagged>, links: seq<Link>, benefits: seq<Named>) returns (rows: seq<Row>)
    ensures BenefitRows(rows) == BenefitFacets(base, links, benefits)
    ensures CategoryRows(rows) == []
    ensures forall k | 0 <= k < |rows| :: !rows[k].SummaryRow?
  {
    rows := [];
    for i := 0 to |benefits|
      invariant BenefitRows(rows) == BenefitFacets(base, links, benefits[..i])
      invariant CategoryRows(rows) == []
      invariant forall k | 0 <= k < |rows| :: !rows[k].SummaryRow?
    {
      assert benefits[..i + 1][..i] == benefits[..i];
      if AnyLink(base, links, benefits[i].id) {
        var row := BenefitRow(benefits[i].slug, BenefitCount(base, links, benefits[i].id));
        RowsSnoc(rows, row);
        rows := rows + [row];
      }
    }
    assert benefits[..|benefits|] == benefits;
  }

  /** The category branch, after the rows of the branches before it. */
  method CategoryBranch(base: map<nat, Tagged>, categories: seq<Named>, before: seq<Row>) returns (rows: seq<Row>)
    requires CategoryRows(before) == []
    requires forall k | 0 <= k < |before| :: !before[k].SummaryRow?
    ensures BenefitRows(rows) == BenefitRows(before)
    ensures CategoryRows(rows) == CategoryFacets(base, categories)
    ensures forall k | 0 <= k < |rows| :: !rows[k].SummaryRow?
  {
    rows := before;
    for i := 0 to |categories|
      invariant BenefitRows(rows) == BenefitRows(before)
      invariant CategoryRows(rows) == CategoryFacets(base, categories[..i])
      invariant forall k | 0 <= k < |rows| :: !rows[k].SummaryRow?
    {
      assert categories[..i + 1][..i] == categories[..i];
      if exists id | id in base :: base[id].category == categories[i].id {
        var row := CategoryRow(categories[i].slug, CategoryCount(base, categories[i].id));
        RowsSnoc(rows, row);
        rows := rows + [row];
      }
    }
    assert categories[..|categories|] == categories;
  }

  /** The three groups as one list of tagged rows, the way the query returns them. */
  method QueryRows(c: Catalog, f: Filter) returns (rows: seq<Row>)
    ensures BenefitRows(rows) == BenefitFacets(Base(c, f), c.links, c.benefits)
    ensures CategoryRows(rows) == CategoryFacets(Base(c, f), c.categories)
    ensures |rows| > 0 && rows[|rows| - 1].SummaryRow?
    ensures forall i | 0 <= i < |rows| - 1 :: !rows[i].SummaryRow?
    ensures rows[|rows| - 1].total == SummaryCount(Base(c, f))
    ensures Bounds(Base(c, f), rows[|rows| - 1].min, rows[|rows| - 1].max)
  {
    var base := Base(c, f);
    rows := BenefitBranch(base, c.links, c.benefits);
    rows := CategoryBranch(base, c.categories, rows);
    var lo, hi := PriceBounds(base);
    RowsSnoc(rows, SummaryRow(SummaryCount(base), lo, hi));
    rows := rows + [SummaryRow(SummaryCount(base), lo, hi)];
  }

  /** What the sidebar promises about the grid. */
  ghost predicate Agrees(c: Catalog, f: Filter, r: Result) {
    && (forall j | 0 <= j < |r.categories| ::
          r.categories[j].count == ListTotal(c, f.(category := r.categories[j].slug)))
    && (forall j | 0 <= j < |r.benefits| ::
          r.benefits[j].count == ListTotal(c, f.(benefits := [r.benefits[j].slug])))
    && r.total == ListTotal(c, f.(category := ""))
    && (f.benefits != [] ==> r.total == |ListedForAny(c, f.(category := ""))|)
    && EndsAre(c, f, r.min, r.max)
    && TotalOf(r.categories) == r.total
    && (forall id | id in c.products ::
          Listed(c, f.(floor := Some(r.min), ceiling := Some(r.max)), id) <==>
            Listed(c, f.(floor := None, ceiling := None), id) && c.products[id].prices != [])
  }

  lemma GroupsAgree(c: Catalog, f: Filter, r: Result, lo: Option<int>, hi: Option<int>)
    requires Keyed(c) && Bounds(Base(c, f), lo, hi)
    requires r == Result(CategoryFacets(Base(c, f), c.categories), BenefitFacets(Base(c, f), c.links, c.benefits),
                         SummaryCount(Base(c, f)), OrZero(lo), OrZero(hi))
    ensures Agrees(c, f, r)
  {
    forall j | 0 <= j < |r.categories|
      ensures r.categories[j].count == ListTotal(c, f.(category := r.categories[j].slug))
    {
      var k := FacetOfCategory(Base(c, f), c.categories, j);
      CategoryAgrees(c, f, k);
    }
    forall j | 0 <= j < |r.benefits|
      ensures r.benefits[j].count == ListTotal(c, f.(benefits := [r.benefits[j].slug]))
    {
      var k := FacetOfBenefit(Base(c, f), c.links, c.benefits, j);
      BenefitAgrees(c, f, k);
    }
    SummaryAgrees(c, f);
    BoundsAreEnds(c, f, lo, hi);
    if f.benefits != [] {
      AnyBenefitWillDo(c, f.(category := ""));
    }
    HiddenCategoriesCountNothing(Base(c, f), c.categories);
    CategoriesSumToTotal(c, f);
    forall id | id in c.products {
      BoundsLoseNothing(c, f, lo, hi, id);
    }
  }

  /** One tagged row into its group; the summary's bounds are zero when nothing is priced. */
  method FileRow(r: Result, row: Row) returns (filed: Result)
    ensures filed.categories == r.categories + if row.CategoryRow? then [FacetCount(row.slug, row.n)] else []
    ensures filed.benefits == r.benefits + if row.BenefitRow? then [FacetCount(row.slug, row.n)] else []
    ensures !row.SummaryRow? ==> filed.total == r.total && filed.min == r.min && filed.max == r.max
    ensures row.SummaryRow? && r.min == 0 && r.max == 0 ==>
              filed.total == row.total && filed.min == OrZero(row.min) && filed.max == OrZero(row.max)
  {
    filed := r;
    match row {
      case CategoryRow(slug, n) => filed := filed.(categories := filed.categories + [FacetCount(slug, n)]);
      case BenefitRow(slug, n) => filed := filed.(benefits := filed.benefits + [FacetCount(slug, n)]);
      case SummaryRow(total, lo, hi) =>
        filed := filed.(total := total);
        if lo.Some? {
          filed := filed.(min := lo.value);
        }
        if hi.Some? {
          filed := filed.(max := hi.value);
        }
    }
  }

  /** The counts of the rows, group by group, and the summary's figures once its row has come. */
  ghost predicate FiledUpTo(r: Result, rows: seq<Row>, i: nat)
    requires 0 < |rows| && i <= |rows| && rows[|rows| - 1].SummaryRow?
  {
    && r.categories == CategoryRows(rows[..i])
    && r.benefits == BenefitRows(rows[..i])
    && (i < |rows| ==> r.total == 0 && r.min == 0 && r.max == 0)
    && (i == |rows| ==> var last := rows[i - 1];
                        r.total == last.total && r.min == OrZero(last.min) && r.max == OrZero(last.max))
  }

  lemma GroupsGrow(rows: seq<Row>, i: nat)
    requires i < |rows|
    ensures BenefitRows(rows[..i + 1]) ==
            BenefitRows(rows[..i]) + if rows[i].BenefitRow? then [FacetCount(rows[i].slug, rows[i].n)] else []
    ensures CategoryRows(rows[..i + 1]) ==
            CategoryRows(rows[..i]) + if rows[i].CategoryRow? then [FacetCount(rows[i].slug, rows[i].n)] else []
  {
    assert rows[..i + 1] == rows[..i] + [rows[i]];
    RowsSnoc(rows[..i], rows[i]);
  }

  /** Every row of the query into its group. */
  method FileRows(rows: seq<Row>) returns (r: Result)
    requires 0 < |rows| && rows[|rows| - 1].SummaryRow? && forall i | 0 <= i < |rows| - 1 :: !rows[i].SummaryRow?
    ensures FiledUpTo(r, rows, |rows|)
  {
    r := Result([], [], 0, 0, 0);
    for i := 0 to |rows|
      invariant FiledUpTo(r, rows, i)
    {
      GroupsGrow(rows, i);
      r := FileRow(r, rows[i]);
    }
  }

  /** One round trip: the tagged rows sorted back apart into the three groups. */
  method CatalogFacets(c: Catalog, f: Filter) returns (r: Result)
    requires Keyed(c)
    ensures Agrees(c, f, r)
    ensures r.categories == CategoryFacets(Base(c, f), c.categories)
    ensures InDisplayOrder(r.categories, c.categories, HoldsVisible(c, f))
    ensures r.benefits == BenefitFacets(Base(c, f), c.links, c.benefits)
    ensures InDisplayOrder(r.benefits, c.benefits, WornByVisible(c, f))
  {
    var rows := QueryRows(c, f);
    r := FileRows(rows);
    ShownInOrder(c, f);
    assert rows[..|rows|] == rows;
    GroupsAgree(c, f, r, rows[|rows| - 1].min, rows[|rows| - 1].max);
  }
}
