# Tienda: a verified model of the store session and its order engine

This project models the in-memory logic of the `Tienda` store session in gestion.py, together with the date-range filter `filtrar_pedidos_por_fecha` of persistencia.py, and proves properties of that model in Dafny.

- **The catalog and the customer list.** `productos` and `clientes` are Python dictionaries keyed by integer id. They are modelled by `PyDict.Dict`, a map plus the key order, because listing and searching return values in insertion order. A fresh id is one more than the largest key, or 1 for an empty dictionary.
- **`Tienda` is a class.** Its fields are `productos`, `clientes` and `pedidos`. It has add, partial update and delete for products. Every method changes only what it states it changes. Each call that would rewrite `productos.csv` or `pedidos.json` increments a ghost write counter.
- **Order creation.** `crear_pedido` (`Gestion.Tienda.CreateOrder`) runs its loop over the lines as the `while` loop of `Gestion.Tienda.TakeLines`, which is proved against the specification function `OrderEngine.Run`. The lines are walked in request order. Each id and quantity is parsed as `int()` would parse it, and the product is looked up. The stock is checked against the quantity and then decremented at once. An item snapshot records the product's name and price at that moment, and a running total is kept. The first rejected line ends the walk. The lemmas about `Run` state:
  - the stock accounting;
  - that the items match the request;
  - that each stock check sees the decrements of earlier lines;
  - that the walk stops at the first failure.
- **The read-only queries.** The customer's order history and the case-insensitive name search are functions whose contracts state exactly which elements they return, in which order and how many times. The sales total is `Gestion.SalesTotal`, the sum of `.get("total_pedido", 0)` over the orders. It is additive over concatenated order lists (`Gestion.SalesTotalAppend`), and `CreateOrder` raises it by exactly the new order's total.
- **The date filter.** `filtrar_pedidos_por_fecha` is a `for` loop with `continue` guards. Its contract says the result is an order-preserving subsequence of the input, holding exactly the orders whose `"fecha"` parses and lies within the inclusive bounds that parse. `parse_fecha` is a strict parser for zero-padded `YYYY-MM-DD` dates that actually exist in the calendar. It is proved to read back what `FormatDate` writes.

Prices are integers, for example cents, so `round(..., 2)` is the identity. The timestamp `datetime.now().strftime(...)` is a parameter of `CreateOrder`. The rows read from the files at start-up are parameters of the constructor.

**Where the code departs from the intended design**, the model follows the code:

- **No rollback.** Order creation is meant to be all-or-nothing. In gestion.py:169 each accepted line decrements stock before the following lines are checked. The early `return`s at gestion.py:152, 160 and 167 leave those decrements in memory; only the file writes are skipped. `OrderEngine.RunAccounting` states this for a rejected request, and `Scenarios.RejectionKeepsEarlierDecrements` shows a concrete case.
- **No positivity check.** Quantities are meant to be positive. gestion.py never checks it: a negative quantity passes the check at gestion.py:162 and raises the stock (`Scenarios.NegativeQuantityRaisesStock`).
- **Orders never match the date filter.** Orders built by `crear_pedido` store their timestamp under `"fecha_pedido"` (gestion.py:192). The filter reads `"fecha"` (persistencia.py:204). Such orders therefore have `date == None` (`Gestion.Tienda.CreateOrder`), and `Persistencia.FilterByDate` returns `[]` for a list made only of them.

## Model

| member | source | states |
|---|---|---|
| PyDict.Empty | test/test_tienda.py:7 | `{}`: a well-formed dictionary with no keys and no entries |
| PyDict.NextId | gestion.py:84-85 | the fresh id is larger than every key, so it is not in use; 1 for an empty dictionary; otherwise the largest key plus one |
| PyDict.Values | gestion.py:87-88 | `list(d.values())`: one value per key, in key order, and exactly the stored values |
| PyDict.Put | gestion.py:93 | `d[k] = v`: the entry is replaced; a new key is appended to the key order; an existing key keeps its place; the dictionary stays well formed |
| PyDict.Remove | gestion.py:121 | `del d[k]`: exactly that key is gone; the remaining keys keep their order |
| PyDict.KeyCount | gestion.py:87-88 | a well-formed dictionary has as many keys in its order as entries |
| PyDict.FromRows | gestion.py:55-65 | loading rows by id, as the dict comprehensions do: every row's id is present, and every entry is one of the rows, stored under its own id |
| PyDict.FromRowsLastWins | gestion.py:59 | when an id repeats, the last row with that id is the one kept |
| Gestion.Tienda.constructor | gestion.py:46-51 | the session starts from the rows loaded by id; `pedidos` is the stored list, or `[]` when the file held anything else; nothing has been written yet |
| Gestion.Tienda.AddProduct | gestion.py:90-97 | exactly one entry is added, under the fresh id, with the given name, price and stock; it goes at the end of the catalog order; size grows by one; customers and orders are unchanged; the product file is written once |
| Gestion.Tienda.UpdateProduct | gestion.py:99-117 | false and no change at all for an unknown id; for a known id, true, exactly the fields passed are replaced, the id and place are kept, other products are unchanged, and the file is written once |
| Gestion.Tienda.DeleteProduct | gestion.py:119-131 | true exactly for a known id, which alone is removed while the rest keep their order and one file write happens; false and no change for an unknown id |
| Gestion.Tienda.CreateOrder | gestion.py:133-202 | an unknown customer changes nothing. Otherwise the catalog ends as `Run` leaves it, decrements kept even on rejection. A rejected request returns its reason and changes neither orders nor files. An accepted one appends exactly one order carrying the next order id, the customer's name, the timestamp, the items and their total; it raises the sales total by that amount and writes both files once |
| Gestion.Tienda.TakeLines | gestion.py:143-180 | the loop leaves the catalog, the items, the running total and the stopping reason exactly as `OrderEngine.Run` gives them for the old catalog and the lines; customers, orders and write counters are unchanged |
| Gestion.Tienda.OrderHistory | gestion.py:204-207 | `None` exactly for an unknown customer; otherwise exactly that customer's orders, in list order, each as often as in the list |
| Gestion.Tienda.SearchByName | gestion.py:209-212 | an order-preserving subsequence of the catalog's values, holding exactly the products whose lower-cased name contains the lower-cased term |
| Gestion.Tienda.SalesReport | gestion.py:214-216 | 0 with no orders, and 0 when no order carries a total |
| Gestion.SalesTotal | gestion.py:215 | orders with no `total_pedido` count as 0 |
| Gestion.SalesTotalAppend | gestion.py:214-216 | the sales total of two order lists one after the other is the sum of their totals |
| OrderEngine.ToInt | gestion.py:145-146 | `int(x)` keeps an integer as it is; text is read by `Text.ParseInt` |
| OrderEngine.ToIntShow | gestion.py:145-146 | an id or quantity typed as its decimal spelling reads as the same number as when passed as an integer |
| OrderEngine.CheckLine | gestion.py:144-180 | one pass of the loop body: an accepted line keeps the catalog well formed with the same keys in the same order; a line is never rejected for the customer. Its outcomes are stated by `CheckLineOutcomes` |
| OrderEngine.CheckLineOutcomes | gestion.py:144-180 | invalid exactly when the id or the quantity does not parse; not found exactly when both parse and the id is absent; accepted exactly when the id is present and its stock covers the quantity. Then only that product's stock drops by the quantity, and the item snapshots id, name, quantity, unit price and price × quantity |
| OrderEngine.Advance | gestion.py:143-180 | one turn of the loop keeps the catalog well formed; its outcomes are stated by `AdvanceOutcomes` |
| OrderEngine.AdvanceOutcomes | gestion.py:143-180 | a stopped walk is left as it is; a rejected line records the reason `CheckLine` gave and changes nothing else; a walk still running after the turn had its line accepted and gained exactly that line's catalog, item and subtotal |
| OrderEngine.Run | gestion.py:143-180 | the specification of the whole loop. Its own contract only keeps the catalog well formed. Its meaning is carried by `RunFrame`, `RunAccounting`, `RunItems`, `RunChecksStock`, `RunStopsAtFirstFailure` and `RunRejectedAt` |
| OrderEngine.RunFrame | gestion.py:154-169 | walking the lines changes stock only: the same keys in the same order, and every id, name and price kept |
| OrderEngine.RunAccounting | gestion.py:162-180 | accepted or rejected, the items are those of the lines accepted so far (all lines exactly when nothing was rejected), the total is the sum of their subtotals, and every product's stock is its old stock minus what those items took of it |
| OrderEngine.RunItems | gestion.py:143-179 | item i records line i: its parsed id and quantity, the product's name and unit price, and subtotal = price × quantity |
| OrderEngine.RunChecksStock | gestion.py:162-169 | every accepted line had at least its quantity in stock, counted after the decrements of the earlier lines of the same request |
| OrderEngine.RunStopsAtFirstFailure | gestion.py:143-167 | a rejected walk stopped at its first failing line: the catalog and items are exactly those of the lines before it, and that line's check gave the reason |
| OrderEngine.RunRejectedAt | gestion.py:147-167 | once a line is rejected after a clean prefix, the lines after it are not looked at and the walk's result is fixed |
| OrderEngine.NextOrderId | gestion.py:182-186 | 1 for no orders; otherwise one more than the largest order id, so it differs from every id in use |
| Persistencia.ParseFecha | persistencia.py:193-197 | `parse_fecha(pedido.get("fecha"))`: a missing `"fecha"` gives `None`; whatever parses is a date that exists |
| Persistencia.Bound | persistencia.py:199-200 | an absent or empty bound is no bound; a bound that parses is a date that exists |
| Persistencia.BoundFormatDate | persistencia.py:199-200 | a bound spelled as `FormatDate` writes a date is that date |
| Persistencia.Admits | persistencia.py:204-210 | an admitted order's `"fecha"` parses and is no earlier than the lower bound and no later than the upper bound, each when present; an order without `"fecha"` is never admitted; with no bounds, exactly the orders whose `"fecha"` parses are |
| Persistencia.AdmitsOnTheBounds | persistencia.py:208-210 | the bounds are inclusive: an order dated on the bound itself is admitted |
| Persistencia.AdmittedMembers | persistencia.py:202-213 | a list holding each admitted order as often as the input and nothing else contains exactly the admitted orders of the input, and is empty when no order has a `"fecha"` |
| Persistencia.ParseDate | persistencia.py:193-197 | whatever parses is a date that exists (years 1-9999, a day of its month) |
| Persistencia.FilterByDate | persistencia.py:189-215 | an order-preserving subsequence of the input with each admitted order's multiplicity. It holds exactly the orders whose `"fecha"` parses and lies within the bounds, inclusive, each bound counting only when present, non-empty and parseable. With both bounds open, every order with a parseable date is kept. Orders with no `"fecha"` are never returned |
| Persistencia.ParseFormatDate | persistencia.py:193-197 | every existing date reads back, through the parser, from its zero-padded spelling |
| Text.ParseIntShow | gestion.py:145-146 | `int()` of an integer's decimal spelling gives back that integer |
| Text.ParseInt | gestion.py:145-146 | a non-empty run of ASCII digits reads as its decimal value |
| Text.ParseIntNeedsDigit | gestion.py:145-146 | whatever `int()` accepts contains at least one digit |
| Text.StripSlice | gestion.py:145-146 | the whitespace `int()` ignores is taken only from the ends: what is left is a contiguous slice of the text |
| Text.Lower | gestion.py:211 | `lower()`: no capital letter is left, and each character differs from the original at most in case |
| Text.LowerIgnoresCase | gestion.py:211 | two texts lower-case to the same text exactly when they differ only in case |
| Text.Contains | gestion.py:211 | `needle in hay`: the empty term is contained in every name, and a contained term is no longer than the name |
| Text.ContainsIffOccurs | gestion.py:211 | the substring test `needle in hay` holds exactly when the needle occurs at some position of the haystack |
| Text.LowerIdempotent | gestion.py:211 | lower-casing twice is lower-casing once |
| Seqs.Filter | gestion.py:207 | a list comprehension with a condition keeps exactly the elements that satisfy it, in order, each as often as in the input |
| Seqs.FilterDistinct | gestion.py:210-212 | filtering a list without repeats gives a list without repeats |
| Seqs.MaxOf | gestion.py:85 | `max` of a non-empty list is one of its elements and bounds all of them |
| Scenarios.RiceAndBread | test/test_tienda.py:67-77 | two rice and three bread out of 15 each: accepted, items in request order, total 25500, stock left 13 and 12 |
| Scenarios.MoreThanInStock | gestion.py:162-167 | asking for more than the stock is rejected with the catalog unchanged |
| Scenarios.ExactlyTheStock | gestion.py:162 | exactly the stock is accepted and leaves 0; one more is rejected |
| Scenarios.RejectionKeepsEarlierDecrements | gestion.py:154-169 | a request whose second line names no product is rejected, while the rice taken by its first line stays taken |
| Scenarios.NegativeQuantityRaisesStock | gestion.py:162-169 | a negative quantity is accepted, raises the stock and gives a negative total |
| Scenarios.NextIdExamples | gestion.py:84-85 | keys 5 and 2 give 6; no keys give 1 |
| Scenarios.SalesExample | gestion.py:214-216 | orders of 24000 and 1500 report 25500; no orders report 0 |
| Scenarios.SearchIgnoresCase | test/test_tienda.py:97-104 | searching "pan" or "PAN" in the rice-and-bread catalog finds just the bread |

## Left out

- File I/O: reading and writing CSV and JSON files, the `_cargar_*` and `_guardar_*` wrappers, and the corrupt-file fallback. The loaded rows and the stored order list are constructor parameters. Writes are only counted, in the ghost fields `productWrites` and `orderWrites`.
- Console output (`console.print` and its messages), the terminal menus of main.py, and the Excel and PDF exports. These have no effect on the state.
- Floating-point prices and `round(..., 2)`. Prices are integers, so rounding is the identity and `float(precio)` is just the value.
- `datetime.now()`: the timestamp is an opaque string parameter of `CreateOrder`.
- Persistencia.ParseDate: accepts only the zero-padded `YYYY-MM-DD` spelling. `strptime` also accepts unpadded months and days such as `2024-1-5`, and those are parsed as `None` here.
- Text.ParseInt: models `int()` on ASCII text only: surrounding ASCII whitespace, an optional sign, ASCII digits. Underscores between digits and non-ASCII digits or whitespace are not accepted.
- Text.Lower: lower-cases ASCII and Latin-1 capital letters only. Other Unicode case mappings are not modelled.
- Coercion errors on raw arguments of `actualizar_producto` and `agregar_producto`, for example `float("x")` raising after `nombre` was already set. These methods take typed optional arguments. In `crear_pedido`, `int(None)` raises `TypeError`, which the code does not catch; here every raw value is either an integer or text.
- Aliasing of `Producto` objects: products are values, and an in-place field update becomes storing the updated value under the same key. Any other references to the old object are not modelled.
- Stored order documents without an `"id_pedido"` or `"id_cliente"` key, which make `max(...)` or the history filter raise. Every modelled order carries both.
- Customer add, update and delete: gestion.py has none, so none is modelled.
- Gestion.Tienda.CreateOrder returns an outcome value. The source returns `None` on every path.
