/**
 * The store session `Tienda`: its product and customer dictionaries and its order list,
 * the catalog operations, order creation and the read-only queries. Every operation that
 * changes the catalog or the order list also rewrites the corresponding file; the writes
 * themselves are not modelled, only counted.
 */
module Gestion {
  import opened Wrappers
  import opened Seqs
  import opened PyDict
  import opened Text
  import opened Records
  import opened OrderEngine

  /** `sum(p.get("total_pedido", 0) for p in os)`: orders without a total count as 0. */
  function SalesTotal(os: seq<Order>): (t: int)
    ensures (forall i :: 0 <= i < |os| ==> os[i].total.None?) ==> t == 0
    decreases |os|
  {
    if os == [] then 0 else SalesTotal(os[..|os| - 1]) + os[|os| - 1].total.GetOr(0)
  }

  /** The sales total of two order lists one after the other is the sum of their totals. */
  lemma {:induction false} SalesTotalAppend(a: seq<Order>, b: seq<Order>)
    ensures SalesTotal(a + b) == SalesTotal(a) + SalesTotal(b)
    decreases |b|
  {
    if b == [] {
      assert a + b == a;
    } else {
      var init := b[..|b| - 1];
      SalesTotalAppend(a, init);
      assert (a + b)[..|a + b| - 1] == a + init;
      assert (a + b)[|a + b| - 1] == b[|b| - 1];
    }
  }

  class Tienda {
    var productos: Dict<Product>
    var clientes: Dict<Customer>
    var pedidos: seq<Order>
    /** How often the product file and the order file have been rewritten. */
    ghost var productWrites: nat
    ghost var orderWrites: nat

    /** Both dictionaries are well formed and every record is stored under its own id. */
    ghost predicate Valid()
      reads this
    {
      && PyDict.Valid(productos)
      && PyDict.Valid(clientes)
      && (forall k :: k in productos.entries ==> productos.entries[k].id == k)
      && (forall k :: k in clientes.entries ==> clientes.entries[k].id == k)
    }

    /**
     * `Tienda()`, given what the files held: the rows of the product and customer files,
     * and the order file's contents when it held a list (`None` for anything else).
     */
    constructor (productRows: seq<Product>, customerRows: seq<Customer>, storedOrders: Option<seq<Order>>)
      ensures Valid()
      ensures productos == FromRows(productRows, ProductId)
      ensures clientes == FromRows(customerRows, CustomerId)
      ensures pedidos == storedOrders.GetOr([])
      ensures productWrites == 0 && orderWrites == 0
    {
      productos := FromRows(productRows, ProductId);
      clientes := FromRows(customerRows, CustomerId);
      pedidos := if storedOrders.Some? then storedOrders.value else [];
      productWrites, orderWrites := 0, 0;
    }

    /**
     * `agregar_producto`: the product is stored under a fresh id, one more than the largest
     * one in use, at the end of the catalog; nothing else changes.
     */
    method AddProduct(nombre: string, precio: int, stock: int)
      requires Valid()
      modifies this
      ensures Valid()
      ensures var id := NextId(old(productos));
        && id !in old(productos.entries)
        && productos.entries == old(productos.entries)[id := Product(id, nombre, precio, stock)]
        && productos.keys == old(productos.keys) + [id]
      ensures |productos.entries| == |old(productos.entries)| + 1
      ensures clientes == old(clientes) && pedidos == old(pedidos)
      ensures productWrites == old(productWrites) + 1 && orderWrites == old(orderWrites)
    {
      var nuevoId := NextId(productos);
      productos := Put(productos, nuevoId, Product(nuevoId, nombre, precio, stock));
      productWrites := productWrites + 1;
    }

    /**
     * `actualizar_producto`: an unknown id changes nothing and gives false; a known one gets
     * exactly the fields that were passed replaced, keeps its place, and gives true.
     */
    method UpdateProduct(id: int, nombre: Option<string>, precio: Option<int>, stock: Option<int>)
      returns (ok: bool)
      requires Valid()
      modifies this
      ensures Valid()
      ensures ok <==> id in old(productos.entries)
      ensures !ok ==> productos == old(productos) && productWrites == old(productWrites)
      ensures ok ==>
        var before := old(productos.entries[id]);
        && productos.keys == old(productos.keys)
        && productos.entries == old(productos.entries)[id := Product(
             before.id, nombre.GetOr(before.name), precio.GetOr(before.price), stock.GetOr(before.stock))]
        && productWrites == old(productWrites) + 1
      ensures clientes == old(clientes) && pedidos == old(pedidos) && orderWrites == old(orderWrites)
    {
      if id !in productos.entries {
        return false;
      }
      var prod := productos.entries[id];
      if nombre.Some? {
        prod := prod.(name := nombre.value);
      }
      if precio.Some? {
        prod := prod.(price := precio.value);
      }
      if stock.Some? {
        prod := prod.(stock := stock.value);
      }
      productos := Put(productos, id, prod);
      productWrites := productWrites + 1;
      return true;
    }

    /**
     * `eliminar_producto`: a known id is removed, the other products keep their order, and
     * the result is true; an unknown id changes nothing and gives false.
     */
    method DeleteProduct(id: int) returns (ok: bool)
      requires Valid()
      modifies this
      ensures Valid()
      ensures ok <==> id in old(productos.entries)
      ensures ok ==>
        && productos.entries == old(productos.entries) - {id}
        && |productos.entries| == |old(productos.entries)| - 1
        && IsSubsequence(productos.keys, old(productos.keys))
        && productWrites == old(productWrites) + 1
      ensures !ok ==> productos == old(productos) && productWrites == old(productWrites)
      ensures clientes == old(clientes) && pedidos == old(pedidos) && orderWrites == old(orderWrites)
    {
      if id in productos.entries {
        productos := Remove(productos, id);
        productWrites := productWrites + 1;
        return true;
      }
      return false;
    }

    /**
     * `crear_pedido`. An unknown customer changes nothing. Otherwise the lines are walked in
     * order as `Run` describes, decrementing stock as they go; a rejected line ends the walk
     * with the earlier decrements left in place and no order and no file written. When every
     * line is accepted the order gets the next order id, the customer's name, the items and
     * their total, is appended, and both files are rewritten.
     */
    method CreateOrder(customerId: int, lines: seq<Line>, timestamp: string) returns (outcome: Outcome)
      requires Valid()
      modifies this
      ensures Valid()
      ensures clientes == old(clientes)
      ensures customerId !in old(clientes.entries) ==>
        && outcome == Refused(CustomerNotFound)
        && productos == old(productos) && pedidos == old(pedidos)
        && productWrites == old(productWrites) && orderWrites == old(orderWrites)
      ensures customerId in old(clientes.entries) ==>
        var run := Run(old(productos), lines);
        && productos == run.catalog
        && (run.stopped.Some? ==>
              && outcome == Refused(run.stopped.value)
              && pedidos == old(pedidos)
              && productWrites == old(productWrites) && orderWrites == old(orderWrites))
        && (run.stopped.None? ==>
              && outcome == Created(Order(NextOrderId(old(pedidos)), customerId,
                                          old(clientes.entries[customerId].name), timestamp,
                                          None, run.items, Some(run.total)))
              && pedidos == old(pedidos) + [outcome.order]
              && SalesTotal(pedidos) == SalesTotal(old(pedidos)) + run.total
              && productWrites == old(productWrites) + 1 && orderWrites == old(orderWrites) + 1)
    {
      if customerId !in clientes.entries {
        return Refused(CustomerNotFound);
      }
      var items, costoTotal, stopped := TakeLines(lines);
      if stopped.Some? {
        return Refused(stopped.value);
      }
      var nuevoId := NextOrderId(pedidos);
      var nuevoPedido := Order(nuevoId, customerId, clientes.entries[customerId].name, timestamp,
                               None, items, Some(costoTotal));
      SalesTotalAppend(pedidos, [nuevoPedido]);
      assert SalesTotal([nuevoPedido]) == costoTotal by {
        assert [nuevoPedido][..0] == [];
      }
      pedidos := pedidos + [nuevoPedido];
      productWrites := productWrites + 1;
      orderWrites := orderWrites + 1;
      return Created(nuevoPedido);
    }

    /**
     * The loop of `crear_pedido`: each line is parsed, its product looked up, its stock
     * checked and at once decremented, and its item recorded; the first rejected line ends
     * the loop with its reason, leaving the earlier decrements in the catalog.
     */
    method TakeLines(lines: seq<Line>) returns (items: seq<Item>, costoTotal: int, stopped: Option<Rejection>)
      requires Valid()
      modifies this
      ensures Valid()
      ensures clientes == old(clientes) && pedidos == old(pedidos)
      ensures productWrites == old(productWrites) && orderWrites == old(orderWrites)
      ensures Run(old(productos), lines) == Progress(productos, items, costoTotal, stopped)
    {
      items := [];
      costoTotal := 0;
      var i := 0;
      while i < |lines|
        invariant 0 <= i <= |lines|
        invariant Valid()
        invariant clientes == old(clientes) && pedidos == old(pedidos)
        invariant productWrites == old(productWrites) && orderWrites == old(orderWrites)
        invariant Run(old(productos), lines[..i]) == Progress(productos, items, costoTotal, None)
      {
        CheckLineOutcomes(productos, lines[i]);
        var idProd := ToInt(lines[i].product);
        var cantidad := ToInt(lines[i].quantity);
        if idProd.None? || cantidad.None? {
          RunRejectedBy(old(productos), lines, i, InvalidLine);
          return items, costoTotal, Some(InvalidLine);
        }
        if idProd.value !in productos.entries {
          RunRejectedBy(old(productos), lines, i, ProductNotFound);
          return items, costoTotal, Some(ProductNotFound);
        }
        var producto := productos.entries[idProd.value];
        if producto.stock < cantidad.value {
          RunRejectedBy(old(productos), lines, i, InsufficientStock);
          return items, costoTotal, Some(InsufficientStock);
        }
        RunNextLine(old(productos), lines, i);
        AdvanceAccepted(Progress(productos, items, costoTotal, None), lines[i], idProd.value, cantidad.value);
        productos := Put(productos, idProd.value, producto.(stock := producto.stock - cantidad.value));
        var item := Item(idProd.value, producto.name, cantidad.value, producto.price, producto.price * cantidad.value);
        items := items + [item];
        costoTotal := costoTotal + item.subtotal;
        i := i + 1;
      }
      WholePrefix(lines);
      return items, costoTotal, None;
    }

    /**
     * `historial_pedidos_cliente`: `None` exactly for an unknown customer; otherwise exactly
     * that customer's orders, each as often as in the order list, in list order.
     */
    function OrderHistory(customerId: int): (r: Option<seq<Order>>)
      reads this
      ensures r.None? <==> customerId !in clientes.entries
      ensures r.Some? ==>
        && IsSubsequence(r.value, pedidos)
        && (forall o :: o in r.value <==> o in pedidos && o.customerId == customerId)
        && (forall o :: multiset(r.value)[o] == if o.customerId == customerId then multiset(pedidos)[o] else 0)
    {
      if customerId !in clientes.entries then None
      else Some(Filter(pedidos, (o: Order) => o.customerId == customerId))
    }

    /**
     * `buscar_productos_por_nombre`: exactly the products whose lower-cased name contains the
     * lower-cased term, in catalog order.
     */
    function SearchByName(termino: string): (r: seq<Product>)
      reads this
      requires Valid()
      ensures IsSubsequence(r, Values(productos))
      ensures forall p :: p in r <==>
        (exists k :: k in productos.entries && productos.entries[k] == p) && Contains(Lower(p.name), Lower(termino))
    {
      Filter(Values(productos), (p: Product) => Contains(Lower(p.name), Lower(termino)))
    }

    /** `generar_reporte_ventas`: the sum of the order totals; 0 for no orders. */
    function SalesReport(): (r: int)
      reads this
      ensures pedidos == [] ==> r == 0
      ensures (forall i :: 0 <= i < |pedidos| ==> pedidos[i].total.None?) ==> r == 0
    {
      SalesTotal(pedidos)
    }
  }
}
