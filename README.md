# ProductManager, modelled in Dafny

The system is one Java class, `ProductManager`: an in-memory product
catalog with order bookkeeping. It keeps three collections — the catalog
(product id to product), a registry of order-number generators (supplier id
to a zero-argument callback) and the order history (a list of orders) — and
offers two kinds of operations:

- updates: insert or overwrite a product, update a product's stock through a
  caller-supplied policy, register a generator, and process an order (every
  line whose id the catalog knows updates that product's stock and adds its
  quantity to the order; unknown ids are skipped; the order is appended to
  the history);
- queries: filter by a predicate, the ACTIVE products sorted by price, the
  average price of a category (0 when the category is empty), the price sum
  per category, and the total of a caller-supplied valuation.

The model has three modules:

- `Catalog` (catalog.dfy): the records (`Product`, `Order`, `Status`), the
  catalog as `map<string, Product>`, the stock policy as a function from a
  product and a quantity to the new stock, and the value-level meaning of the
  updates (`WithStockUpdate` for updateStock, `ApplyLines` and
  `OrderedQuantities` for processOrder) with the lemmas that tie one loop
  step of processOrder to one call of updateStock and one `compute` step.
- `Queries` (queries.dfy): the stream queries as functions. A Java stream over
  `products.values()` visits the hash map's entries in an unspecified order;
  here that order is an explicit parameter `ids`, any sequence listing every
  key once (`IsEnumeration`). The filter and sort results are characterised
  by multisets, and the numeric results are proved not to depend on `ids`.
- `Manager` (manager.dfy): class `ProductManager` with the three fields and
  the methods that change them. `Valid()` is the class invariant: every
  product is stored under its own id, and every recorded order names only
  catalog products (the catalog never loses a key; orders name products by
  id). `ProcessOrder` keeps the loop of `processOrder`: it picks the pending
  lines in an arbitrary order, calls `UpdateStock` for each known line and
  merges its quantity into the order.

The order's quantity map is keyed by product id. In `processOrder` it is
keyed by the `Product` object, which the catalog holds under exactly that id, so
the two keys name the same product. Because the order's lines come from a
map, each id appears on one line, and each product's quantity is the sum of
the quantities of the lines that resolve to it: that one line's quantity.

## Model

| member | source | states |
|---|---|---|
| Manager.ProductManager.constructor | src/ProductManager.java:22-26 | a new manager has an empty catalog, no generators and no orders, and satisfies the invariant |
| Manager.ProductManager.GetProductById | src/ProductManager.java:32-34 | the result is present exactly when the id is stored, is the stored product, and (under the invariant) carries that id |
| Manager.ProductManager.AddProduct | src/ProductManager.java:28-30 | afterwards the product is found under its id, every other id maps to what it mapped to before, generators and orders are unchanged, and the invariant holds |
| Manager.ProductManager.UpdateStock | src/ProductManager.java:46-54 | an unknown id changes nothing and reports not-found; a known id gets the stock the policy computes, everything else unchanged; with the increment policy the stock rises by exactly the quantity |
| Manager.ProductManager.RegisterOrderNumberSupplier | src/ProductManager.java:63-65 | the registry maps the supplier to the new generator, replacing an earlier one; catalog and orders unchanged |
| Manager.ProductManager.GenerateOrderNumber | src/ProductManager.java:68-75 | a registered supplier's generator value, otherwise the sentinel "Supplier not found" |
| Manager.ProductManager.ProcessOrder | src/ProductManager.java:81-106 | the catalog afterwards is the one where each known line went through the policy once and unknown lines changed nothing; exactly one order carrying the given id and the known lines' quantities is appended and earlier history is unchanged; the invariant holds |
| Catalog.Values | src/ProductManager.java:38 | the stream of the map's values has one element per key; on a well-keyed catalog each stored product occurs once and nothing else occurs |
| Catalog.Increment | src/ProductManager.java:42-45 | the documented policy: the new stock is the old stock plus the quantity; its effect through updateStock is stated by UpdateStock and KnownAndUnknownLine |
| Catalog.WithStockUpdate | src/ProductManager.java:46-54 | updateStock's effect: unknown id leaves the catalog equal; known id changes only that product's stock, to the policy's value; well-keyedness is kept |
| Catalog.ApplyLines | src/ProductManager.java:84-98 | the catalog after a set of order lines: known lines' products carry the policy's stock, every other product is unchanged, keys are unchanged |
| Catalog.OrderedQuantities | src/ProductManager.java:83-97 | the order records exactly the processed lines whose id the catalog knows, each with its line's quantity (the sum over the one line that resolves to that product); a line whose id is unknown never appears |
| Catalog.Merge | src/ProductManager.java:90-96 | the `compute` step: the product's amount becomes the line's quantity plus the earlier amount (or the quantity alone when there was none); other entries unchanged |
| Catalog.ApplyOneMoreLine | src/ProductManager.java:84-89 | processing one more line equals one updateStock call on the catalog as it stands, so each known line applies the policy exactly once |
| Catalog.OrderOneMoreLine | src/ProductManager.java:87-97 | one more line merges its quantity under its product's id when the id is known, and leaves the order's quantities unchanged when it is not |
| Catalog.KnownAndUnknownLine | src/ProductManager.java:81-100 | with one known and one unknown line under the increment policy, the known product's stock rises by its quantity, the unknown line is skipped, and the order records only the known product with its quantity |
| Queries.Filter | src/ProductManager.java:38 | the stream filter keeps exactly the elements satisfying the predicate, with their multiplicities |
| Queries.FilterProducts | src/ProductManager.java:36-39 | every result satisfies the predicate and is a catalog product; on a well-keyed catalog each satisfying product occurs exactly once and nothing else occurs |
| Queries.FilterAllIsCatalog | src/ProductManager.java:36-39 | with a predicate that accepts everything the result is the whole catalog, as a multiset |
| Queries.FilterProductsOrderIndependent | src/ProductManager.java:38 | two iteration orders of one catalog filter to the same multiset of products |
| Queries.InsertByPrice | src/ProductManager.java:117-118 | inserting into a price-sorted sequence keeps it sorted and adds exactly the inserted product |
| Queries.SortByPrice | src/ProductManager.java:117-118 | the result is non-decreasing in price and a permutation of the input |
| Queries.ActiveSortedByPrice | src/ProductManager.java:110-121 | the result is non-decreasing in price and, on a well-keyed catalog, holds each ACTIVE product exactly once and no other product |
| Queries.SumByPermutation | src/ProductManager.java:60 | a sum over a stream does not depend on the order of its elements |
| Queries.TotalValue | src/ProductManager.java:59-61 | calculateTotalValue: the valuation summed over the catalog's values; what it promises is stated by TotalValueOrderIndependent and TotalValueAfterAdd |
| Queries.TotalValueOrderIndependent | src/ProductManager.java:59-61 | the total value is the same for every iteration order of the catalog |
| Queries.ValuesAfterAdd | src/ProductManager.java:28-30 | inserting a product under a new id adds exactly that product to the catalog's values |
| Queries.TotalValueAfterAdd | src/ProductManager.java:59-61 | inserting a product under a new id raises the total value by exactly the product's value |
| Queries.GroupPriceSum | src/ProductManager.java:156-157 | the groupingBy/summingDouble collection over a stream; its keys and values are stated by GroupPriceSumKeys and GroupPriceSumValues |
| Queries.GroupPriceSumKeys | src/ProductManager.java:156-157 | grouping has one entry per category that occurs in the stream |
| Queries.GroupPriceSumValues | src/ProductManager.java:156-157 | each group's entry is the sum of the prices of that category's products |
| Queries.CategoryPriceSum | src/ProductManager.java:149-160 | the key set is exactly the categories present in the catalog, and each value is the sum of prices (not price times stock) of that category's products |
| Queries.CategoryPriceSumOrderIndependent | src/ProductManager.java:149-160 | the category sums are the same for every iteration order of the catalog |
| Queries.AveragePriceInCategory | src/ProductManager.java:127-141 | the average is 0 when no product has the category |
| Queries.AverageIsCategorySumOverCount | src/ProductManager.java:127-141 | for a category that has products, the average is its price sum (as getCategoryPriceSum reports it) divided by the number of its products |
| Queries.MeanPriceWithin | src/ProductManager.java:135-138 | the mean price of a non-empty stream lies within any bounds on its prices |
| Queries.AverageWithinPrices | src/ProductManager.java:127-141 | the average price of a category lies between the lowest and the highest price in that category |
| Queries.AverageOrderIndependent | src/ProductManager.java:127-141 | the average is the same for every iteration order of the catalog |

## Left out

- Console output (the messages of updateStock and processOrder, `getOrderDetails`, the printed total) is I/O and carries no state; `UpdateStock` returns which of its two messages would be printed.
- `Order.getTotalAmount` and `getOrderDetails`: the `Order`, `Product` and `ProductStatus` classes are not part of this model; `Product` is a record of id, name, category, price, stock and status, and `Order` a record of order id and quantities.
- Prices, sums and averages are exact `real`s: IEEE double rounding, NaN and signed zeros in the price comparator are not modelled.
- `Catalog.StockPolicy`: the caller's `BiConsumer` is modelled as a pure function giving the new stock; a policy that changes other fields, has side effects elsewhere or throws is out of scope.
- Manager.ProductManager.UpdateStock: the increment policy adds in unbounded integers; the documented Java policy adds `int`s, which wrap at 2^31.
- Catalog.Merge: the sum of quantities is unbounded; Java's `Integer` addition would wrap (it is never reached with distinct ids, see above).
- Manager.ProductManager.GenerateOrderNumber: a generator is a pure function `() -> string`; a `Supplier` that keeps state between calls (a counter) is not modelled.
- The `Product` objects are values: aliasing (the caller keeping and mutating a product it added, or one object stored under two ids) is not modelled, and the order keys products by id rather than by object identity.
- The hash map's iteration order is a parameter of the queries; hashing and rehashing themselves are not modelled.
- Null arguments (a null predicate, product or quantity) and the resulting `NullPointerException`s are not modelled.
