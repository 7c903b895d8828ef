/**
 The records the product manager keeps: products, the catalog that maps a
 product id to its product, orders, and the stock-update policies callers
 hand in. Also the value-level meaning of the manager's updates, which the
 methods of class ProductManager are proved against.
 */
module Catalog {

  datatype Option<T> = None | Some(value: T)

  datatype Status = Active | Inactive

  /** A product record. The catalog stores it under its own `id`. */
  datatype Product = Product(id: string, name: string, category: string, price: real, stock: int, status: Status)

  /** An order: the caller's order id and, for every product the order
      touched (named by the product's id), the quantity ordered. */
  datatype Order = Order(orderId: string, quantities: map<string, int>)

  type Catalog = map<string, Product>

  /** The caller-supplied stock update: from the product and a quantity,
      the product's new stock. */
  type StockPolicy = (Product, int) -> int

  /** The update the manager's documentation shows: add the quantity. */
  function Increment(p: Product, quantity: int): int
  {
    p.stock + quantity
  }

  /** Every product is stored under its own id. */
  ghost predicate WellKeyed(c: Catalog)
  {
    forall id :: id in c ==> c[id].id == id
  }

  /** `p` is the product the catalog holds under `p.id`. */
  ghost predicate InCatalog(c: Catalog, p: Product)
  {
    p.id in c && c[p.id] == p
  }

  ghost predicate Distinct(ids: seq<string>)
  {
    forall i, j :: 0 <= i < j < |ids| ==> ids[i] != ids[j]
  }

  /** `ids` lists every key of `c` exactly once: one possible order in
      which the hash map underneath the catalog yields its entries. */
  ghost predicate IsEnumeration(ids: seq<string>, c: Catalog)
  {
    Distinct(ids) && forall id :: id in ids <==> id in c
  }

  /** The catalog's products in the order `ids` names their keys: the
      stream `products.values()`. */
  function Values(c: Catalog, ids: seq<string>): (r: seq<Product>)
    requires forall id :: id in ids ==> id in c
    ensures |r| == |ids|
    ensures forall p :: p in r ==> p in c.Values
    ensures forall id :: id in ids ==> c[id] in r
    ensures WellKeyed(c) && Distinct(ids) ==>
      forall p :: multiset(r)[p] == if p.id in ids && InCatalog(c, p) then 1 else 0
  {
    if ids == [] then []
    else
      var rest := Values(c, ids[1..]);
      assert Distinct(ids) ==> Distinct(ids[1..]);
      assert forall id :: id in ids ==> id == ids[0] || id in ids[1..];
      [c[ids[0]]] + rest
  }

  /** The catalog after `updateStock(id, quantity, policy)`: a known
      product gets the stock the policy computes and nothing else changes;
      an unknown id leaves the catalog as it was. */
  function WithStockUpdate(c: Catalog, id: string, quantity: int, policy: StockPolicy): (r: Catalog)
    ensures id !in c ==> r == c
    ensures r.Keys == c.Keys
    ensures id in c ==> r[id].stock == policy(c[id], quantity)
    ensures id in c ==> r[id] == c[id].(stock := r[id].stock)
    ensures forall k :: k in c && k != id ==> r[k] == c[k]
    ensures WellKeyed(c) ==> WellKeyed(r)
  {
    if id in c then c[id := c[id].(stock := policy(c[id], quantity))] else c
  }

  /** The catalog once the lines of `items` whose ids are in `done` went
      through the policy, each exactly once; a line whose id the catalog
      lacks changes nothing. */
  function ApplyLines(c: Catalog, items: map<string, int>, policy: StockPolicy, done: set<string>): (r: Catalog)
    ensures r.Keys == c.Keys
    ensures forall id :: id in c && id in done && id in items ==> r[id] == c[id].(stock := policy(c[id], items[id]))
    ensures forall id :: id in c && !(id in done && id in items) ==> r[id] == c[id]
    ensures WellKeyed(c) ==> WellKeyed(r)
  {
    map id | id in c :: if id in done && id in items then c[id].(stock := policy(c[id], items[id])) else c[id]
  }

  /** The quantities an order records for the lines in `done`: only lines
      whose id the catalog knows, each with the line's quantity. */
  function OrderedQuantities(c: Catalog, items: map<string, int>, done: set<string>): (r: map<string, int>)
    ensures r.Keys <= c.Keys
    ensures forall id :: id in items && id !in c ==> id !in r
    ensures forall id :: id in done && id in items && id in c ==> id in r && r[id] == items[id]
    ensures forall id :: id in r ==> id in done && id in items
  {
    map id | id in done && id in items && id in c :: items[id]
  }

  /** Adds `quantity` to the amount recorded for `productId`, or records
      `quantity` when there is none yet (the `compute` step of processOrder). */
  function Merge(amounts: map<string, int>, productId: string, quantity: int): (r: map<string, int>)
    ensures r.Keys == amounts.Keys + {productId}
    ensures r[productId] == quantity + (if productId in amounts then amounts[productId] else 0)
    ensures forall k :: k in amounts && k != productId ==> r[k] == amounts[k]
  {
    if productId in amounts then amounts[productId := amounts[productId] + quantity]
    else amounts[productId := quantity]
  }

  /** Processing one more line runs updateStock once on the catalog as it
      stands: the line's product (if known) goes through the policy. */
  lemma {:induction false} ApplyOneMoreLine(c: Catalog, items: map<string, int>, policy: StockPolicy, done: set<string>, id: string)
    requires id in items && id !in done
    ensures ApplyLines(c, items, policy, done + {id})
         == WithStockUpdate(ApplyLines(c, items, policy, done), id, items[id], policy)
  {
    var before := ApplyLines(c, items, policy, done);
    var after := ApplyLines(c, items, policy, done + {id});
    var stepped := WithStockUpdate(before, id, items[id], policy);
    assert after.Keys == stepped.Keys;
    forall k | k in after
      ensures after[k] == stepped[k]
    {
      if k == id {
        assert before[k] == c[k];
      }
    }
  }

  /** Processing one more line adds its quantity to the order, under its
      product's id, exactly when the catalog knows the line's id. */
  lemma {:induction false} OrderOneMoreLine(c: Catalog, items: map<string, int>, done: set<string>, id: string)
    requires WellKeyed(c)
    requires id in items && id !in done
    ensures id in c ==>
      OrderedQuantities(c, items, done + {id}) == Merge(OrderedQuantities(c, items, done), c[id].id, items[id])
    ensures id !in c ==> OrderedQuantities(c, items, done + {id}) == OrderedQuantities(c, items, done)
  {
    var before := OrderedQuantities(c, items, done);
    var after := OrderedQuantities(c, items, done + {id});
    if id in c {
      var merged := Merge(before, c[id].id, items[id]);
      assert id !in before;
      assert after.Keys == merged.Keys;
      forall k | k in after
        ensures after[k] == merged[k]
      {
      }
    } else {
      assert after.Keys == before.Keys;
    }
  }

  /** An order with one line for a stored product and one for an id the
      catalog lacks, under the increment policy: the stored product's
      stock rises by its line's quantity, the other line is skipped, and
      the order records only the stored product with its quantity. */
  lemma {:induction false} KnownAndUnknownLine(c: Catalog, known: string, unknown: string, q: int, q': int)
    requires known in c && unknown !in c
    ensures var items := map[known := q, unknown := q'];
      && ApplyLines(c, items, Increment, items.Keys) == c[known := c[known].(stock := c[known].stock + q)]
      && OrderedQuantities(c, items, items.Keys) == map[known := q]
  {
    var items := map[known := q, unknown := q'];
    var after := ApplyLines(c, items, Increment, items.Keys);
    var expected := c[known := c[known].(stock := c[known].stock + q)];
    assert after.Keys == expected.Keys;
    forall id | id in after
      ensures after[id] == expected[id]
    {
    }
    var ordered := OrderedQuantities(c, items, items.Keys);
    assert ordered.Keys == {known};
  }
}
