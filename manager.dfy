/**
 The product manager object: the catalog, the registry of order-number
 generators and the order history, and the operations that change them.
 The read-only queries over the catalog are the functions of module Queries
 applied to the manager's `products`.
 */
module Manager {
  import opened Catalog

  /** What generateOrderNumber answers for a supplier with no generator. */
  const SupplierNotFound := "Supplier not found"

  class ProductManager {
    var products: Catalog
    var orderNumberSuppliers: map<string, () -> string>
    var orders: seq<Order>

    /** Every product sits under its own id, and every order names only
        products of the catalog (products are never removed). */
    ghost predicate Valid()
      reads this
    {
      && WellKeyed(products)
      && forall i :: 0 <= i < |orders| ==> orders[i].quantities.Keys <= products.Keys
    }

    constructor ()
      ensures Valid()
      ensures products == map[] && orderNumberSuppliers == map[] && orders == []
    {
      products := map[];
      orderNumberSuppliers := map[];
      orders := [];
    }

    /** getProductById: the product stored under `productId`, or nothing. */
    function GetProductById(productId: string): (r: Option<Product>)
      reads this
      ensures r.Some? <==> productId in products
      ensures r.Some? ==> r.value == products[productId]
      ensures Valid() && r.Some? ==> r.value.id == productId
    {
      if productId in products then Some(products[productId]) else None
    }

    /** addProduct: inserts the product under its id, replacing whatever
        was there; every other id keeps its product. */
    method AddProduct(product: Product)
      requires Valid()
      modifies this
      ensures Valid()
      ensures products == old(products)[product.id := product]
      ensures GetProductById(product.id) == Some(product)
      ensures forall id :: id != product.id ==> GetProductById(id) == old(GetProductById(id))
      ensures orderNumberSuppliers == old(orderNumberSuppliers) && orders == old(orders)
    {
      products := products[product.id := product];
    }

    /** updateStock: on a known id the policy sets that product's stock and
        nothing else changes; an unknown id changes nothing. `updated` says
        which of the two messages the Java method prints. */
    method UpdateStock(productId: string, quantity: int, policy: StockPolicy) returns (updated: bool)
      requires Valid()
      modifies this
      ensures Valid()
      ensures updated <==> productId in old(products)
      ensures products == WithStockUpdate(old(products), productId, quantity, policy)
      ensures policy == Increment && updated ==> products[productId].stock == old(products[productId].stock) + quantity
      ensures orderNumberSuppliers == old(orderNumberSuppliers) && orders == old(orders)
    {
      var product := GetProductById(productId);
      if product.Some? {
        products := products[productId := product.value.(stock := policy(product.value, quantity))];
        updated := true;
      } else {
        updated := false;
      }
    }

    /** registerOrderNumberSupplier: stores the generator for the supplier,
        replacing an earlier one. */
    method RegisterOrderNumberSupplier(supplierId: string, supplier: () -> string)
      modifies this
      ensures orderNumberSuppliers == old(orderNumberSuppliers)[supplierId := supplier]
      ensures products == old(products) && orders == old(orders)
    {
      orderNumberSuppliers := orderNumberSuppliers[supplierId := supplier];
    }

    /** generateOrderNumber: what the supplier's generator yields, or the
        sentinel when the supplier has none. */
    method GenerateOrderNumber(supplierId: string) returns (orderNumber: string)
      ensures supplierId in orderNumberSuppliers ==> orderNumber == orderNumberSuppliers[supplierId]()
      ensures supplierId !in orderNumberSuppliers ==> orderNumber == SupplierNotFound
    {
      if supplierId in orderNumberSuppliers {
        var supplier := orderNumberSuppliers[supplierId];
        orderNumber := supplier();
      } else {
        orderNumber := SupplierNotFound;
      }
    }

    /** processOrder: every line whose id the catalog knows goes through
        updateStock once and adds its quantity to the order; other lines
        are skipped. One order is appended to the history. */
    method ProcessOrder(orderId: string, orderItems: map<string, int>, policy: StockPolicy)
      requires Valid()
      modifies this
      ensures Valid()
      ensures products == ApplyLines(old(products), orderItems, policy, orderItems.Keys)
      ensures orders == old(orders) + [Order(orderId, OrderedQuantities(old(products), orderItems, orderItems.Keys))]
      ensures orderNumberSuppliers == old(orderNumberSuppliers)
    {
      ghost var initial := products;
      var productQuantityMap: map<string, int> := map[];
      var pending := orderItems.Keys;
      while pending != {}
        invariant pending <= orderItems.Keys
        invariant Valid()
        invariant products == ApplyLines(initial, orderItems, policy, orderItems.Keys - pending)
        invariant productQuantityMap == OrderedQuantities(initial, orderItems, orderItems.Keys - pending)
        invariant orders == old(orders) && orderNumberSuppliers == old(orderNumberSuppliers)
        decreases pending
      {
        var productId :| productId in pending;
        var quantity := orderItems[productId];
        ghost var done := orderItems.Keys - pending;
        ApplyOneMoreLine(initial, orderItems, policy, done, productId);
        OrderOneMoreLine(initial, orderItems, done, productId);
        var product := GetProductById(productId);
        if product.Some? {
          var _ := UpdateStock(productId, quantity, policy);
          productQuantityMap := Merge(productQuantityMap, product.value.id, quantity);
        }
        pending := pending - {productId};
        assert orderItems.Keys - pending == done + {productId};
      }
      assert orderItems.Keys - pending == orderItems.Keys;
      orders := orders + [Order(orderId, productQuantityMap)];
    }
  }
}
