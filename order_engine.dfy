/**
 * The order engine of `Tienda.crear_pedido`: it walks the requested lines in order,
 * parses each line's product id and quantity, looks the product up, checks and decrements
 * its stock, and records an item snapshot. A rejected line ends the walk; the decrements
 * made by the lines before it stay in place.
 */
module OrderEngine {
  import opened Wrappers
  import opened Seqs
  import opened PyDict
  import opened Text
  import opened Records

  /** A request value as the caller passes it: already an integer, or text typed at a prompt. */
  datatype Raw = RawInt(n: int) | RawText(s: string)

  /** One entry of the request dictionary: a product id and a quantity, both unparsed. */
  datatype Line = Line(product: Raw, quantity: Raw)

  /** Why an order is turned down. */
  datatype Rejection = CustomerNotFound | InvalidLine | ProductNotFound | InsufficientStock

  /** What `crear_pedido` did: the order it appended, or why it stopped. */
  datatype Outcome = Created(order: Order) | Refused(reason: Rejection)

  /** `int(x)`: an integer is kept, text is parsed. */
  function ToInt(r: Raw): (v: Option<int>)
    ensures r.RawInt? ==> v == Some(r.n)
  {
    match r
    case RawInt(n) => Some(n)
    case RawText(s) => ParseInt(s)
  }

  /** An id or quantity typed as its decimal spelling reads as that number, as if passed as one. */
  lemma ToIntShow(n: int)
    ensures ToInt(RawText(Show(n))) == ToInt(RawInt(n))
  {
    ParseIntShow(n);
  }

  /** The effect of one requested line on the catalog. */
  datatype Step = Accepted(catalog: Dict<Product>, item: Item) | Rejected(reason: Rejection)

  /**
   * One pass of the loop body: parse, look up, compare the stock with the quantity, and on
   * success decrement the stock and snapshot the product's name and price. The quantity is
   * not required to be positive.
   */
  function CheckLine(catalog: Dict<Product>, line: Line): (st: Step)
    requires Valid(catalog)
    ensures st.Accepted? ==> Valid(st.catalog) && st.catalog.keys == catalog.keys
    ensures st.Rejected? ==> st.reason != CustomerNotFound
  {
    match (ToInt(line.product), ToInt(line.quantity))
    case (Some(id), Some(qty)) =>
      if id !in catalog.entries then Rejected(ProductNotFound)
      else
        var p := catalog.entries[id];
        if p.stock < qty then Rejected(InsufficientStock)
        else Accepted(Put(catalog, id, p.(stock := p.stock - qty)),
                      Item(id, p.name, qty, p.price, p.price * qty))
    case _ => Rejected(InvalidLine)
  }

  /** The loop's state: the catalog, the items so far, the running total, and why it stopped. */
  datatype Progress = Progress(catalog: Dict<Product>, items: seq<Item>, total: int, stopped: Option<Rejection>)

  /**
   * What one pass of the loop body decides: a line whose id or quantity does not parse is
   * invalid; one naming no product is not found; otherwise it is accepted exactly when the
   * stock covers the quantity, and then that product alone loses the quantity and the item
   * snapshots its name and price.
   */
  lemma CheckLineOutcomes(catalog: Dict<Product>, line: Line)
    requires Valid(catalog)
    ensures CheckLine(catalog, line) == Rejected(InvalidLine) <==> ToInt(line.product).None? || ToInt(line.quantity).None?
    ensures CheckLine(catalog, line) == Rejected(ProductNotFound) <==>
      ToInt(line.product).Some? && ToInt(line.quantity).Some? && ToInt(line.product).value !in catalog.entries
    ensures CheckLine(catalog, line).Accepted? <==>
      && ToInt(line.product).Some? && ToInt(line.quantity).Some?
      && ToInt(line.product).value in catalog.entries
      && catalog.entries[ToInt(line.product).value].stock >= ToInt(line.quantity).value
    ensures CheckLine(catalog, line).Rejected? ==> CheckLine(catalog, line).reason != CustomerNotFound
    ensures CheckLine(catalog, line).Accepted? ==>
      var id, qty := ToInt(line.product).value, ToInt(line.quantity).value;
      var p := catalog.entries[id];
      && CheckLine(catalog, line).catalog.keys == catalog.keys
      && CheckLine(catalog, line).catalog.entries == catalog.entries[id := p.(stock := p.stock - qty)]
      && CheckLine(catalog, line).item == Item(id, p.name, qty, p.price, p.price * qty)
  {
  }

  /** One turn of the loop: a stopped walk stays stopped; otherwise the line is checked. */
  function Advance(pr: Progress, line: Line): (r: Progress)
    requires Valid(pr.catalog)
    ensures Valid(r.catalog)
  {
    if pr.stopped.Some? then pr
    else
      match CheckLine(pr.catalog, line)
      case Rejected(why) => pr.(stopped := Some(why))
      case Accepted(next, item) => Progress(next, pr.items + [item], pr.total + item.subtotal, None)
  }

  /**
   * What one turn decides: a stopped walk is left as it is; a rejected line records its
   * reason and changes nothing else; a walk still running after the turn had its line
   * accepted, and gained exactly that line's catalog, item and subtotal.
   */
  lemma AdvanceOutcomes(pr: Progress, line: Line)
    requires Valid(pr.catalog)
    ensures var r := Advance(pr, line);
      && (pr.stopped.Some? ==> r == pr)
      && (pr.stopped.None? && r.stopped.Some? ==>
            r == pr.(stopped := r.stopped) && CheckLine(pr.catalog, line) == Rejected(r.stopped.value))
      && (r.stopped.None? ==>
            && pr.stopped.None?
            && CheckLine(pr.catalog, line).Accepted?
            && r.catalog == CheckLine(pr.catalog, line).catalog
            && r.items == pr.items + [CheckLine(pr.catalog, line).item]
            && r.total == pr.total + CheckLine(pr.catalog, line).item.subtotal)
  {
  }

  /** The loop run over `lines` from the start; once a line is rejected the rest are not looked at. */
  function Run(catalog: Dict<Product>, lines: seq<Line>): (r: Progress)
    requires Valid(catalog)
    ensures Valid(r.catalog)
    decreases |lines|
  {
    if lines == [] then Progress(catalog, [], 0, None)
    else Advance(Run(catalog, lines[..|lines| - 1]), lines[|lines| - 1])
  }

  /** Total quantity the items take of product `id`. */
  function QtyFor(items: seq<Item>, id: int): int
    decreases |items|
  {
    if items == [] then 0
    else
      var last := items[|items| - 1];
      QtyFor(items[..|items| - 1], id) + (if last.productId == id then last.quantity else 0)
  }

  /** Sum of the items' subtotals. */
  function SubtotalSum(items: seq<Item>): int
    decreases |items|
  {
    if items == [] then 0 else SubtotalSum(items[..|items| - 1]) + items[|items| - 1].subtotal
  }

  /**
   * `item` is what an accepted `line` records against the catalog `p` as it was before the
   * order: the parsed id and quantity, the product's name and unit price, and their product.
   */
  ghost predicate RecordsLine(p: Dict<Product>, line: Line, item: Item)
  {
    && ToInt(line.product) == Some(item.productId)
    && ToInt(line.quantity) == Some(item.quantity)
    && item.productId in p.entries
    && item.name == p.entries[item.productId].name
    && item.unitPrice == p.entries[item.productId].price
    && item.subtotal == item.unitPrice * item.quantity
  }

  /** An order changes stock only: the keys, their order, and every id, name and price stay. */
  lemma {:induction false} RunFrame(p: Dict<Product>, lines: seq<Line>)
    requires Valid(p)
    ensures Run(p, lines).catalog.keys == p.keys
    ensures forall k :: k in Run(p, lines).catalog.entries <==> k in p.entries
    ensures forall k :: k in p.entries ==>
      Run(p, lines).catalog.entries[k] == p.entries[k].(stock := Run(p, lines).catalog.entries[k].stock)
    decreases |lines|
  {
    if lines != [] {
      RunFrame(p, lines[..|lines| - 1]);
    }
  }

  /**
   * Bookkeeping of the walk, for an accepted order and a rejected one alike: the items are
   * those of the lines accepted so far (all of them exactly when nothing was rejected), the
   * total is the sum of their subtotals, and every product's stock is its stock before the
   * order less what those items took of it. Decrements are never rolled back.
   */
  lemma {:induction false} RunAccounting(p: Dict<Product>, lines: seq<Line>)
    requires Valid(p)
    ensures var r := Run(p, lines);
      && |r.items| <= |lines|
      && (r.stopped.None? <==> |r.items| == |lines|)
      && r.total == SubtotalSum(r.items)
      && forall k :: k in p.entries ==>
           k in r.catalog.entries && r.catalog.entries[k].stock == p.entries[k].stock - QtyFor(r.items, k)
    decreases |lines|
  {
    RunFrame(p, lines);
    if lines != [] {
      var init := lines[..|lines| - 1];
      RunAccounting(p, init);
      RunFrame(p, init);
      var pr := Run(p, init);
      if pr.stopped.None? {
        match CheckLine(pr.catalog, lines[|lines| - 1])
        case Rejected(_) =>
        case Accepted(next, item) =>
          var items := pr.items + [item];
          assert items[..|items| - 1] == pr.items;
      }
    }
  }

  /** Item `i` of the order records line `i` of the request, with the name and price of that moment. */
  lemma {:induction false} RunItems(p: Dict<Product>, lines: seq<Line>)
    requires Valid(p)
    ensures var r := Run(p, lines);
      forall i :: 0 <= i < |r.items| ==> i < |lines| && RecordsLine(p, lines[i], r.items[i])
    decreases |lines|
  {
    if lines != [] {
      var init := lines[..|lines| - 1];
      RunItems(p, init);
      RunLastStep(p, lines);
      var pr := Run(p, init);
      assert forall i :: 0 <= i < |init| ==> init[i] == lines[i];
      if Run(p, lines).stopped.None? {
        RunAccounting(p, init);
        RunLastRecords(p, lines);
      }
    }
  }

  /** The item an accepted last line adds records that line against the catalog before the order. */
  lemma RunLastRecords(p: Dict<Product>, lines: seq<Line>)
    requires Valid(p) && lines != [] && Run(p, lines).stopped.None?
    ensures |Run(p, lines[..|lines| - 1]).items| < |Run(p, lines).items|
    ensures RecordsLine(p, lines[|lines| - 1], Run(p, lines).items[|Run(p, lines[..|lines| - 1]).items|])
  {
    var init := lines[..|lines| - 1];
    var pr := Run(p, init);
    RunLastStep(p, lines);
    RunFrame(p, init);
    CheckLineOutcomes(pr.catalog, lines[|lines| - 1]);
  }

  /**
   * Every accepted line passed the stock check against the stock as the earlier lines of the
   * same request had left it: a product named twice is checked the second time against
   * its already decremented stock.
   */
  lemma {:induction false} RunChecksStock(p: Dict<Product>, lines: seq<Line>)
    requires Valid(p)
    ensures var r := Run(p, lines);
      forall i :: 0 <= i < |r.items| ==>
        r.items[i].productId in p.entries &&
        p.entries[r.items[i].productId].stock - QtyFor(r.items[..i], r.items[i].productId) >= r.items[i].quantity
    decreases |lines|
  {
    if lines != [] {
      var init := lines[..|lines| - 1];
      RunChecksStock(p, init);
      RunLastStep(p, lines);
      var pr := Run(p, init);
      var r := Run(p, lines);
      if r.stopped.None? {
        RunFrame(p, init);
        RunAccounting(p, init);
        StockCheckedSnoc(p, pr.items, r.items[|pr.items|]);
      }
    }
  }

  /**
   * The last line's effect on the items: none if the walk is stopped after it; otherwise one
   * item, for a product the catalog held with at least that quantity in stock.
   */
  lemma RunLastStep(p: Dict<Product>, lines: seq<Line>)
    requires Valid(p) && lines != []
    ensures var pr := Run(p, lines[..|lines| - 1]);
      var r := Run(p, lines);
      && (r.stopped.Some? ==> r.items == pr.items)
      && (r.stopped.None? ==>
            && |r.items| == |pr.items| + 1
            && r.items[|pr.items|] == CheckLine(pr.catalog, lines[|lines| - 1]).item
            && r.items == pr.items + [r.items[|pr.items|]]
            && r.items[|pr.items|].productId in pr.catalog.entries
            && pr.catalog.entries[r.items[|pr.items|].productId].stock >= r.items[|pr.items|].quantity)
  {
    var pr := Run(p, lines[..|lines| - 1]);
    AdvanceOutcomes(pr, lines[|lines| - 1]);
    CheckLineOutcomes(pr.catalog, lines[|lines| - 1]);
  }

  /** Every item passed the stock check against `p` less what the items before it took. */
  ghost predicate StockChecked(p: Dict<Product>, items: seq<Item>)
  {
    forall i :: 0 <= i < |items| ==>
      items[i].productId in p.entries &&
      p.entries[items[i].productId].stock - QtyFor(items[..i], items[i].productId) >= items[i].quantity
  }

  /** An item that passes the check against the stock the earlier items left keeps the property. */
  lemma StockCheckedSnoc(p: Dict<Product>, items: seq<Item>, item: Item)
    requires StockChecked(p, items)
    requires item.productId in p.entries
    requires p.entries[item.productId].stock - QtyFor(items, item.productId) >= item.quantity
    ensures StockChecked(p, items + [item])
  {
    var all := items + [item];
    assert all[..|items|] == items;
    forall i | 0 <= i < |items| ensures all[..i] == items[..i] && all[i] == items[i] {
    }
  }

  /** The walk `r` over `lines`, if it stopped, stopped at its first rejected line. */
  ghost predicate StoppedAtFirst(p: Dict<Product>, lines: seq<Line>, r: Progress)
    requires Valid(p)
  {
    r.stopped.Some? ==>
      && |r.items| < |lines|
      && Run(p, lines[..|r.items|]) == r.(stopped := None)
      && Valid(r.catalog)
      && CheckLine(r.catalog, lines[|r.items|]) == Rejected(r.stopped.value)
  }

  /**
   * A rejected request stops at the first line that fails: the catalog and items are exactly
   * those the accepted lines before it produced, and that line's check gave the reason. The
   * failing line itself changes nothing.
   */
  lemma {:induction false} RunStopsAtFirstFailure(p: Dict<Product>, lines: seq<Line>)
    requires Valid(p)
    ensures var r := Run(p, lines);
      r.stopped.Some? ==>
        && |r.items| < |lines|
        && Run(p, lines[..|r.items|]) == r.(stopped := None)
        && CheckLine(r.catalog, lines[|r.items|]) == Rejected(r.stopped.value)
    decreases |lines|
  {
    StoppedAtFirstRun(p, lines);
  }

  lemma {:induction false} StoppedAtFirstRun(p: Dict<Product>, lines: seq<Line>)
    requires Valid(p)
    ensures StoppedAtFirst(p, lines, Run(p, lines))
    decreases |lines|
  {
    if lines != [] {
      var init := lines[..|lines| - 1];
      var pr := Run(p, init);
      StoppedAtFirstRun(p, init);
      assert Run(p, lines) == Advance(pr, lines[|lines| - 1]);
      if pr.stopped.Some? {
        StoppedEarlier(p, lines, pr);
      } else {
        RunAccounting(p, init);
      }
    }
  }

  /** A walk that stopped before the last line keeps its stopping point when a line is added. */
  lemma StoppedEarlier(p: Dict<Product>, lines: seq<Line>, r: Progress)
    requires Valid(p) && lines != [] && r.stopped.Some?
    requires StoppedAtFirst(p, lines[..|lines| - 1], r)
    ensures StoppedAtFirst(p, lines, r)
  {
    PrefixOfInit(lines, |r.items|);
  }

  /** The prefix of all of `lines` is `lines`. */
  lemma WholePrefix<T>(lines: seq<T>)
    ensures lines[..|lines|] == lines
  {
  }

  /** Slicing `lines` below its last index is slicing `lines` without its last element. */
  lemma PrefixOfInit<T>(lines: seq<T>, k: nat)
    requires k < |lines|
    ensures lines[..k] == lines[..|lines| - 1][..k]
    ensures k < |lines| - 1 ==> lines[k] == lines[..|lines| - 1][k]
  {
  }

  /**
   * The converse, in the form the loop uses: after a clean prefix of `i` lines, a line that
   * is rejected decides the whole run.
   */
  lemma RunRejectedAt(p: Dict<Product>, lines: seq<Line>, i: nat, j: nat, why: Rejection)
    requires Valid(p)
    requires i < j <= |lines|
    requires Run(p, lines[..i]).stopped.None?
    requires CheckLine(Run(p, lines[..i]).catalog, lines[i]) == Rejected(why)
    ensures Run(p, lines[..j]) == Run(p, lines[..i]).(stopped := Some(why))
  {
    RunRejectedNext(p, lines, i, why);
    RunStaysStopped(p, lines, i + 1, j);
  }

  /** Once stopped, the walk keeps its result whatever lines follow. */
  lemma {:induction false} RunStaysStopped(p: Dict<Product>, lines: seq<Line>, k: nat, j: nat)
    requires Valid(p)
    requires k <= j <= |lines|
    requires Run(p, lines[..k]).stopped.Some?
    ensures Run(p, lines[..j]) == Run(p, lines[..k])
    decreases j
  {
    if j > k {
      RunStaysStopped(p, lines, k, j - 1);
      RunStoppedNext(p, lines, j - 1);
    }
  }

  /** The line rejected after a clean prefix stops the walk with its reason. */
  lemma RunRejectedNext(p: Dict<Product>, lines: seq<Line>, i: nat, why: Rejection)
    requires Valid(p)
    requires i < |lines|
    requires Run(p, lines[..i]).stopped.None?
    requires CheckLine(Run(p, lines[..i]).catalog, lines[i]) == Rejected(why)
    ensures Run(p, lines[..i + 1]) == Run(p, lines[..i]).(stopped := Some(why))
  {
    RunNextLine(p, lines, i);
    AdvanceRejected(Run(p, lines[..i]), lines[i], why);
  }

  /** A stopped walk is not changed by the next line. */
  lemma RunStoppedNext(p: Dict<Product>, lines: seq<Line>, j: nat)
    requires Valid(p)
    requires j < |lines|
    requires Run(p, lines[..j]).stopped.Some?
    ensures Run(p, lines[..j + 1]) == Run(p, lines[..j])
  {
    RunNextLine(p, lines, j);
    AdvanceStopped(Run(p, lines[..j]), lines[j]);
  }

  /** A line rejected after a clean prefix decides the result of the whole request. */
  lemma RunRejectedBy(p: Dict<Product>, lines: seq<Line>, i: nat, why: Rejection)
    requires Valid(p)
    requires i < |lines|
    requires Run(p, lines[..i]).stopped.None?
    requires CheckLine(Run(p, lines[..i]).catalog, lines[i]) == Rejected(why)
    ensures Run(p, lines) == Run(p, lines[..i]).(stopped := Some(why))
  {
    RunRejectedAt(p, lines, i, |lines|, why);
    WholePrefix(lines);
  }

  /** A stopped walk ignores the next line. */
  lemma AdvanceStopped(pr: Progress, line: Line)
    requires Valid(pr.catalog) && pr.stopped.Some?
    ensures Advance(pr, line) == pr
  {
  }

  /** A rejected line stops a running walk with its reason and changes nothing else. */
  lemma AdvanceRejected(pr: Progress, line: Line, why: Rejection)
    requires Valid(pr.catalog) && pr.stopped.None? && CheckLine(pr.catalog, line) == Rejected(why)
    ensures Advance(pr, line) == pr.(stopped := Some(why))
  {
  }

  /** An accepted line extends a running walk by its item and its subtotal. */
  lemma AdvanceAccepted(pr: Progress, line: Line, id: int, qty: int)
    requires Valid(pr.catalog) && pr.stopped.None?
    requires ToInt(line.product) == Some(id) && ToInt(line.quantity) == Some(qty)
    requires id in pr.catalog.entries && pr.catalog.entries[id].stock >= qty
    ensures var p := pr.catalog.entries[id];
      var item := Item(id, p.name, qty, p.price, p.price * qty);
      Advance(pr, line) == Progress(Put(pr.catalog, id, p.(stock := p.stock - qty)),
                                    pr.items + [item], pr.total + item.subtotal, None)
  {
  }

  /** The walk over one more line is one more turn of the loop. */
  lemma RunNextLine(p: Dict<Product>, lines: seq<Line>, i: nat)
    requires Valid(p) && i < |lines|
    ensures Run(p, lines[..i + 1]) == Advance(Run(p, lines[..i]), lines[i])
  {
    var next := lines[..i + 1];
    assert next[..|next| - 1] == lines[..i];
  }

  /** The id of every order in the list, in list order. */
  function OrderIds(os: seq<Order>): (ids: seq<int>)
    ensures |ids| == |os|
    ensures forall i :: 0 <= i < |os| ==> ids[i] == os[i].id
  {
    seq(|os|, i requires 0 <= i < |os| => os[i].id)
  }

  /**
   * The id of the next order: 1 for an empty order list, otherwise one more than the largest
   * id in it, so it differs from every id already used.
   */
  function NextOrderId(os: seq<Order>): (n: int)
    ensures forall i :: 0 <= i < |os| ==> os[i].id < n
    ensures os == [] ==> n == 1
    ensures os != [] ==> exists i :: 0 <= i < |os| && os[i].id == n - 1
  {
    if os == [] then 1
    else
      var ids := OrderIds(os);
      var m := MaxOf(ids);
      assert forall i :: 0 <= i < |os| ==> os[i].id <= m by {
        forall i | 0 <= i < |os| ensures os[i].id <= m {
          var x := ids[i];
          assert x in ids;
        }
      }
      m + 1
  }
}
