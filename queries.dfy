/**
 The read-only queries of the product manager. Each one is a stream over
 the catalog's values, so each takes, besides the catalog, the order `ids`
 in which the hash map yields its keys; the lemmas show which results do
 not depend on that order.
 */
module Queries {
  import opened Catalog

  /** Keeps the products that satisfy `keep`, in stream order. */
  function Filter(s: seq<Product>, keep: Product -> bool): (r: seq<Product>)
    ensures forall p :: multiset(r)[p] == if keep(p) then multiset(s)[p] else 0
    ensures forall p :: p in r ==> p in s && keep(p)
  {
    if s == [] then []
    else
      assert s == [s[0]] + s[1..];
      (if keep(s[0]) then [s[0]] else []) + Filter(s[1..], keep)
  }

  /** filterProducts: the catalog products that satisfy the predicate.
      On a catalog that stores each product under its own id, every such
      product appears exactly once and nothing else appears. */
  function FilterProducts(c: Catalog, ids: seq<string>, keep: Product -> bool): (r: seq<Product>)
    requires IsEnumeration(ids, c)
    ensures forall p :: p in r ==> p in c.Values && keep(p)
    ensures WellKeyed(c) ==>
      forall p :: multiset(r)[p] == if InCatalog(c, p) && keep(p) then 1 else 0
  {
    Filter(Values(c, ids), keep)
  }

  predicate KeepAll(p: Product)
  {
    true
  }

  /** With a predicate that accepts everything, filterProducts yields the
      whole catalog: each stored product once. */
  lemma FilterAllIsCatalog(c: Catalog, ids: seq<string>)
    requires WellKeyed(c) && IsEnumeration(ids, c)
    ensures multiset(FilterProducts(c, ids, KeepAll)) == multiset(c.Values)
  {
    var r := FilterProducts(c, ids, KeepAll);
    forall p
      ensures multiset(r)[p] == multiset(c.Values)[p]
    {
      if p in c.Values {
        var id :| id in c && c[id] == p;
        assert InCatalog(c, p);
      }
    }
  }

  predicate IsActive(p: Product)
  {
    p.status == Active
  }

  ghost predicate SortedByPrice(s: seq<Product>)
  {
    forall i, j :: 0 <= i < j < |s| ==> s[i].price <= s[j].price
  }

  lemma SortedCons(x: Product, s: seq<Product>)
    requires SortedByPrice(s)
    requires s != [] ==> x.price <= s[0].price
    ensures SortedByPrice([x] + s)
  {
    var r := [x] + s;
    forall i, j | 0 <= i < j < |r|
      ensures r[i].price <= r[j].price
    {
      if i == 0 && j > 1 {
        assert r[1] == s[0] && r[j] == s[j - 1];
      }
    }
  }

  /** Inserts `p` into a price-sorted sequence before the first product
      whose price is at least `p`'s. */
  function InsertByPrice(p: Product, s: seq<Product>): (r: seq<Product>)
    requires SortedByPrice(s)
    ensures SortedByPrice(r)
    ensures multiset(r) == multiset(s) + multiset{p}
    ensures |r| == |s| + 1 && (r[0] == p || (s != [] && r[0] == s[0]))
  {
    if s == [] || p.price <= s[0].price then
      SortedCons(p, s);
      [p] + s
    else
      var rest := InsertByPrice(p, s[1..]);
      assert s == [s[0]] + s[1..];
      assert |s| > 1 ==> s[0].price <= s[1].price;
      SortedCons(s[0], rest);
      [s[0]] + rest
  }

  /** Sorts by price, ascending; products of equal price keep their
      stream order, as the stable sort of a Java stream does. */
  function SortByPrice(s: seq<Product>): (r: seq<Product>)
    ensures SortedByPrice(r)
    ensures multiset(r) == multiset(s)
  {
    if s == [] then []
    else
      assert s == [s[0]] + s[1..];
      InsertByPrice(s[0], SortByPrice(s[1..]))
  }

  /** getActiveProductsSortedByPrice: the ACTIVE products of the catalog,
      cheapest first, each once and no other product. */
  function ActiveSortedByPrice(c: Catalog, ids: seq<string>): (r: seq<Product>)
    requires IsEnumeration(ids, c)
    ensures SortedByPrice(r)
    ensures WellKeyed(c) ==>
      forall p :: multiset(r)[p] == if InCatalog(c, p) && p.status == Active then 1 else 0
  {
    SortByPrice(FilterProducts(c, ids, IsActive))
  }

  /** The sum of `f` over a stream of products. */
  function SumBy(s: seq<Product>, f: Product -> real): real
  {
    if s == [] then 0.0 else f(s[0]) + SumBy(s[1..], f)
  }

  lemma {:induction false} SumByAppend(s: seq<Product>, t: seq<Product>, f: Product -> real)
    ensures SumBy(s + t, f) == SumBy(s, f) + SumBy(t, f)
  {
    if s == [] {
      assert s + t == t;
    } else {
      assert (s + t)[1..] == s[1..] + t;
      SumByAppend(s[1..], t, f);
    }
  }

  /** A sum does not depend on the order of its terms. */
  lemma {:induction false} SumByPermutation(s: seq<Product>, t: seq<Product>, f: Product -> real)
    requires multiset(s) == multiset(t)
    ensures SumBy(s, f) == SumBy(t, f)
    decreases |s|
  {
    if s != [] {
      assert s[0] in multiset(t);
      var i :| 0 <= i < |t| && t[i] == s[0];
      var u := t[..i] + t[i + 1..];
      assert t == t[..i] + [t[i]] + t[i + 1..];
      SumByAppend(t[..i] + [t[i]], t[i + 1..], f);
      SumByAppend(t[..i], [t[i]], f);
      SumByAppend(t[..i], t[i + 1..], f);
      assert s == [s[0]] + s[1..];
      assert multiset(t) == multiset(t[..i]) + multiset{t[i]} + multiset(t[i + 1..]);
      assert multiset(u) == multiset(t[..i]) + multiset(t[i + 1..]);
      assert multiset(s) == multiset{s[0]} + multiset(s[1..]);
      forall x
        ensures multiset(s[1..])[x] == multiset(u)[x]
      {
        assert multiset(s)[x] == multiset(t)[x];
      }
      assert multiset(s[1..]) == multiset(u);
      SumByPermutation(s[1..], u, f);
    }
  }

  /** calculateTotalValue: the sum of the caller's valuation over every
      product, whatever order the map yields them in. */
  function TotalValue(c: Catalog, ids: seq<string>, value: Product -> real): (r: real)
    requires IsEnumeration(ids, c)
  {
    SumBy(Values(c, ids), value)
  }

  lemma TotalValueOrderIndependent(c: Catalog, ids: seq<string>, ids': seq<string>, value: Product -> real)
    requires WellKeyed(c) && IsEnumeration(ids, c) && IsEnumeration(ids', c)
    ensures TotalValue(c, ids, value) == TotalValue(c, ids', value)
  {
    var s, s' := Values(c, ids), Values(c, ids');
    forall p
      ensures multiset(s)[p] == multiset(s')[p]
    {
    }
    assert multiset(s) == multiset(s');
    SumByPermutation(s, s', value);
  }

  lemma InCatalogAfterAdd(c: Catalog, p: Product, q: Product)
    requires p.id !in c
    ensures InCatalog(c[p.id := p], q) <==> q == p || InCatalog(c, q)
    ensures !InCatalog(c, p)
  {
  }

  /** On a well-keyed catalog, the values of any enumeration are the
      stored products, each once. */
  lemma ValuesAreCatalog(c: Catalog, ids: seq<string>)
    requires WellKeyed(c) && IsEnumeration(ids, c)
    ensures forall q :: multiset(Values(c, ids))[q] == if InCatalog(c, q) then 1 else 0
  {
  }

  lemma SameMultiset(a: multiset<Product>, b: multiset<Product>)
    requires forall q :: a[q] == b[q]
    ensures a == b
  {
  }

  /** Adding a product under a new id adds exactly that product to the
      values the map yields. */
  lemma ValuesAfterAdd(c: Catalog, ids: seq<string>, p: Product, ids': seq<string>)
    requires WellKeyed(c) && p.id !in c
    requires IsEnumeration(ids, c) && IsEnumeration(ids', c[p.id := p])
    ensures multiset(Values(c[p.id := p], ids')) == multiset(Values(c, ids)) + multiset{p}
  {
    var c' := c[p.id := p];
    assert WellKeyed(c');
    ValuesAreCatalog(c, ids);
    ValuesAreCatalog(c', ids');
    forall q
      ensures multiset(Values(c', ids'))[q] == (multiset(Values(c, ids)) + multiset{p})[q]
    {
      InCatalogAfterAdd(c, p, q);
    }
    SameMultiset(multiset(Values(c', ids')), multiset(Values(c, ids)) + multiset{p});
  }

  /** Adding a product under a new id raises the total value by exactly
      that product's value. */
  lemma TotalValueAfterAdd(c: Catalog, ids: seq<string>, p: Product, ids': seq<string>, value: Product -> real)
    requires WellKeyed(c) && p.id !in c
    requires IsEnumeration(ids, c) && IsEnumeration(ids', c[p.id := p])
    ensures TotalValue(c[p.id := p], ids', value) == TotalValue(c, ids, value) + value(p)
  {
    var s, s' := Values(c, ids), Values(c[p.id := p], ids');
    ValuesAfterAdd(c, ids, p, ids');
    assert multiset(s + [p]) == multiset(s) + multiset{p};
    SumByPermutation(s', s + [p], value);
    SumByAppend(s, [p], value);
  }

  function Price(p: Product): real
  {
    p.price
  }

  function InCategory(category: string): Product -> bool
  {
    (p: Product) => p.category == category
  }

  /** Splitting off the head of a stream splits off its share of every
      category's price sum. */
  lemma CategorySumCons(s: seq<Product>)
    requires s != []
    ensures forall cat ::
      SumBy(Filter(s, InCategory(cat)), Price)
      == (if s[0].category == cat then s[0].price else 0.0) + SumBy(Filter(s[1..], InCategory(cat)), Price)
  {
    forall cat
      ensures SumBy(Filter(s, InCategory(cat)), Price)
        == (if s[0].category == cat then s[0].price else 0.0) + SumBy(Filter(s[1..], InCategory(cat)), Price)
    {
      var head := if InCategory(cat)(s[0]) then [s[0]] else [];
      assert Filter(s, InCategory(cat)) == head + Filter(s[1..], InCategory(cat));
      SumByAppend(head, Filter(s[1..], InCategory(cat)), Price);
    }
  }

  /** A category no product of the stream has sums to 0. */
  lemma CategorySumAbsent(s: seq<Product>, cat: string)
    requires forall p :: p in s ==> p.category != cat
    ensures SumBy(Filter(s, InCategory(cat)), Price) == 0.0
  {
  }

  /** The categories/price-total map that `groupingBy` with
      `summingDouble(getPrice)` collects from a stream. */
  function GroupPriceSum(s: seq<Product>): map<string, real>
  {
    if s == [] then map[]
    else
      var rest := GroupPriceSum(s[1..]);
      var cat := s[0].category;
      rest[cat := s[0].price + if cat in rest then rest[cat] else 0.0]
  }

  lemma CategoriesCons(s: seq<Product>)
    requires s != []
    ensures (set p | p in s :: p.category) == (set p | p in s[1..] :: p.category) + {s[0].category}
  {
    assert forall p :: p in s <==> p == s[0] || p in s[1..];
  }

  /** Grouping yields one entry per category of the stream. */
  lemma {:induction false} GroupPriceSumKeys(s: seq<Product>)
    ensures GroupPriceSum(s).Keys == set p | p in s :: p.category
  {
    if s != [] {
      GroupPriceSumKeys(s[1..]);
      CategoriesCons(s);
    }
  }

  /** Each entry of the grouping holds the sum of the prices of that
      category's products. */
  lemma {:induction false} GroupPriceSumValues(s: seq<Product>)
    ensures forall cat :: cat in GroupPriceSum(s) ==>
      GroupPriceSum(s)[cat] == SumBy(Filter(s, InCategory(cat)), Price)
  {
    if s != [] {
      var rest := GroupPriceSum(s[1..]);
      var r := GroupPriceSum(s);
      var cat := s[0].category;
      GroupPriceSumValues(s[1..]);
      CategorySumCons(s);
      forall c2 | c2 in r
        ensures r[c2] == SumBy(Filter(s, InCategory(c2)), Price)
      {
        if c2 == cat && cat !in rest {
          GroupPriceSumKeys(s[1..]);
          CategorySumAbsent(s[1..], cat);
        }
      }
    }
  }

  /** getCategoryPriceSum: one entry per category present in the catalog,
      holding the sum of the prices (not price times stock) of the
      category's products. */
  function CategoryPriceSum(c: Catalog, ids: seq<string>): (r: map<string, real>)
    requires IsEnumeration(ids, c)
    ensures r.Keys == set id | id in c :: c[id].category
    ensures forall cat :: cat in r ==> r[cat] == SumBy(FilterProducts(c, ids, InCategory(cat)), Price)
  {
    GroupPriceSumKeys(Values(c, ids));
    GroupPriceSumValues(Values(c, ids));
    GroupPriceSum(Values(c, ids))
  }

  /** Two iteration orders of one catalog filter to the same products. */
  lemma FilterProductsOrderIndependent(c: Catalog, ids: seq<string>, ids': seq<string>, keep: Product -> bool)
    requires WellKeyed(c) && IsEnumeration(ids, c) && IsEnumeration(ids', c)
    ensures multiset(FilterProducts(c, ids, keep)) == multiset(FilterProducts(c, ids', keep))
  {
    var r, r' := FilterProducts(c, ids, keep), FilterProducts(c, ids', keep);
    forall p
      ensures multiset(r)[p] == multiset(r')[p]
    {
    }
  }

  lemma SameEntries(m: map<string, real>, m': map<string, real>)
    requires m.Keys == m'.Keys
    requires forall k :: k in m ==> m[k] == m'[k]
    ensures m == m'
  {
  }

  /** getCategoryPriceSum does not depend on the order the map yields its
      products in. */
  lemma CategoryPriceSumOrderIndependent(c: Catalog, ids: seq<string>, ids': seq<string>)
    requires WellKeyed(c) && IsEnumeration(ids, c) && IsEnumeration(ids', c)
    ensures CategoryPriceSum(c, ids) == CategoryPriceSum(c, ids')
  {
    var m, m' := CategoryPriceSum(c, ids), CategoryPriceSum(c, ids');
    assert m.Keys == m'.Keys;
    assert forall cat :: cat in m ==> m[cat] == m'[cat] by {
      forall cat | cat in m
        ensures m[cat] == m'[cat]
      {
        FilterProductsOrderIndependent(c, ids, ids', InCategory(cat));
        SumByPermutation(FilterProducts(c, ids, InCategory(cat)), FilterProducts(c, ids', InCategory(cat)), Price);
      }
    }
    SameEntries(m, m');
  }

  /** calculateAveragePriceInCategory: 0 when no product has the category,
      otherwise the category's price sum divided by its product count. */
  function AveragePriceInCategory(c: Catalog, ids: seq<string>, category: string): (r: real)
    requires IsEnumeration(ids, c)
    ensures (forall id :: id in c ==> c[id].category != category) ==> r == 0.0
  {
    var matches := FilterProducts(c, ids, InCategory(category));
    if |matches| == 0 then 0.0
    else
      assert matches[0] in c.Values && matches[0].category == category;
      SumBy(matches, Price) / (|matches| as real)
  }

  /** A category that getCategoryPriceSum lists has products, and its
      average is its entry there divided by their number. */
  lemma AverageIsCategorySumOverCount(c: Catalog, ids: seq<string>, category: string)
    requires IsEnumeration(ids, c)
    requires category in CategoryPriceSum(c, ids)
    ensures |FilterProducts(c, ids, InCategory(category))| > 0
    ensures AveragePriceInCategory(c, ids, category)
         == CategoryPriceSum(c, ids)[category] / (|FilterProducts(c, ids, InCategory(category))| as real)
  {
    var id :| id in c && c[id].category == category;
    var vs := Values(c, ids);
    assert c[id] in vs;
    assert InCategory(category)(c[id]);
    assert multiset(Filter(vs, InCategory(category)))[c[id]] == multiset(vs)[c[id]];
  }

  lemma {:induction false} SumByBounds(s: seq<Product>, f: Product -> real, lo: real, hi: real)
    requires forall p :: p in s ==> lo <= f(p) <= hi
    ensures (|s| as real) * lo <= SumBy(s, f) <= (|s| as real) * hi
  {
    if s != [] {
      SumByBounds(s[1..], f, lo, hi);
      assert s[0] in s;
    }
  }

  lemma MeanBounds(sum: real, n: real, lo: real, hi: real)
    requires n > 0.0 && n * lo <= sum <= n * hi
    ensures lo <= sum / n <= hi
  {
    assert sum / n * n == sum;
  }

  lemma PriceSumWithin(s: seq<Product>, lo: real, hi: real)
    requires forall p :: p in s ==> lo <= p.price <= hi
    ensures (|s| as real) * lo <= SumBy(s, Price) <= (|s| as real) * hi
  {
    SumByBounds(s, Price, lo, hi);
  }

  lemma MeanOfPriceSum(s: seq<Product>, lo: real, hi: real)
    requires s != []
    requires (|s| as real) * lo <= SumBy(s, Price) <= (|s| as real) * hi
    ensures lo <= SumBy(s, Price) / (|s| as real) <= hi
  {
    MeanBounds(SumBy(s, Price), |s| as real, lo, hi);
  }

  /** The mean price of a non-empty stream lies within any bounds on its prices. */
  lemma MeanPriceWithin(s: seq<Product>, lo: real, hi: real)
    requires s != []
    requires forall p :: p in s ==> lo <= p.price <= hi
    ensures lo <= SumBy(s, Price) / (|s| as real) <= hi
  {
    PriceSumWithin(s, lo, hi);
    MeanOfPriceSum(s, lo, hi);
  }

  lemma AverageOfMatches(c: Catalog, ids: seq<string>, category: string)
    requires IsEnumeration(ids, c)
    requires |FilterProducts(c, ids, InCategory(category))| > 0
    ensures AveragePriceInCategory(c, ids, category)
         == SumBy(FilterProducts(c, ids, InCategory(category)), Price) / (|FilterProducts(c, ids, InCategory(category))| as real)
  {
  }

  /** The average price of a category lies between the lowest and the
      highest price of that category. */
  lemma AverageWithinPrices(c: Catalog, ids: seq<string>, category: string, lo: real, hi: real)
    requires IsEnumeration(ids, c)
    requires category in CategoryPriceSum(c, ids)
    requires forall id :: id in c && c[id].category == category ==> lo <= c[id].price <= hi
    ensures lo <= AveragePriceInCategory(c, ids, category) <= hi
  {
    AverageIsCategorySumOverCount(c, ids, category);
    var matches := FilterProducts(c, ids, InCategory(category));
    forall p | p in matches
      ensures lo <= p.price <= hi
    {
      var id :| id in c && c[id] == p;
    }
    AverageOfMatches(c, ids, category);
    MeanPriceWithin(matches, lo, hi);
  }

  /** calculateAveragePriceInCategory does not depend on the order the map
      yields its products in. */
  lemma AverageOrderIndependent(c: Catalog, ids: seq<string>, ids': seq<string>, category: string)
    requires WellKeyed(c) && IsEnumeration(ids, c) && IsEnumeration(ids', c)
    ensures AveragePriceInCategory(c, ids, category) == AveragePriceInCategory(c, ids', category)
  {
    var m, m' := FilterProducts(c, ids, InCategory(category)), FilterProducts(c, ids', InCategory(category));
    FilterProductsOrderIndependent(c, ids, ids', InCategory(category));
    assert |m| == |multiset(m)| == |multiset(m')| == |m'|;
    SumByPermutation(m, m', Price);
  }
}
