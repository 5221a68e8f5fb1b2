/** The records the store keeps: products, customers and order documents. */
module Records {
  import opened Wrappers

  /**
   * `Producto`. Prices are whole numbers of the smallest currency unit, so the rounding of
   * prices and subtotals to two decimals is the identity here.
   */
  datatype Product = Product(id: int, name: string, price: int, stock: int)

  /** `int(p["id_producto"])`, the key a product file row is stored under. */
  function ProductId(p: Product): int { p.id }

  /** `Cliente` */
  datatype Customer = Customer(id: int, name: string, email: string)

  /** `int(c["id_cliente"])`, the key a customer file row is stored under. */
  function CustomerId(c: Customer): int { c.id }

  /** One entry of an order's "items" list: the product and its name and price when ordered. */
  datatype Item = Item(productId: int, name: string, quantity: int, unitPrice: int, subtotal: int)

  /**
   * One order document of the order list: "id_pedido", "id_cliente", "nombre_cliente",
   * "fecha_pedido", "items" and "total_pedido". Documents read back from the order file may
   * also carry a "fecha" key, which the date-range filter reads, and may lack
   * "total_pedido", which the sales report then counts as 0; both are optional here.
   */
  datatype Order = Order(
    id: int,
    customerId: int,
    customerName: string,
    orderedAt: string,
    date: Option<string>,
    items: seq<Item>,
    total: Option<int>)
}
