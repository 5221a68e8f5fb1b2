/**
 * Concrete runs of the model on the store's own examples: the catalog of rice and bread,
 * a customer with id 1, and the orders the test file places against them.
 */
module Scenarios {
  import opened Wrappers
  import Seqs
  import opened PyDict
  import opened Text
  import opened Records
  import opened OrderEngine
  import opened Gestion

  function Arroz(): Product { Product(1, "Arroz", 12000, 15) }
  function Pan(): Product { Product(2, "Pan", 500, 15) }

  /** `{1: Producto(1, "Arroz", 12000, 15), 2: Producto(2, "Pan", 500, 15)}` */
  function Catalog(): (d: Dict<Product>)
    ensures PyDict.Valid(d)
  {
    Put(Put(Empty(), 1, Arroz()), 2, Pan())
  }

  /** `{1: 2, 2: 3}`: two rice and three bread; total 2 * 12000 + 3 * 500, stock left 13 and 12. */
  lemma RiceAndBread()
    ensures var lines := [Line(RawInt(1), RawInt(2)), Line(RawInt(2), RawInt(3))];
      var r := Run(Catalog(), lines);
      && r.stopped == None
      && r.total == 25500
      && 1 in r.catalog.entries && r.catalog.entries[1].stock == 13
      && 2 in r.catalog.entries && r.catalog.entries[2].stock == 12
      && r.items == [Item(1, "Arroz", 2, 12000, 24000), Item(2, "Pan", 3, 500, 1500)]
  {
  }

  /** `{1: 20}` asks for more rice than the 15 in stock: rejected, the catalog as it was. */
  lemma MoreThanInStock()
    ensures var r := Run(Catalog(), [Line(RawInt(1), RawInt(20))]);
      r.stopped == Some(InsufficientStock) && r.catalog == Catalog() && r.items == []
  {
  }

  /** Ordering exactly the stock is accepted and leaves none; one more is rejected. */
  lemma ExactlyTheStock()
    ensures Run(Catalog(), [Line(RawInt(2), RawInt(15))]).stopped == None
    ensures 2 in Run(Catalog(), [Line(RawInt(2), RawInt(15))]).catalog.entries
    ensures Run(Catalog(), [Line(RawInt(2), RawInt(15))]).catalog.entries[2].stock == 0
    ensures Run(Catalog(), [Line(RawInt(2), RawInt(16))]).stopped == Some(InsufficientStock)
  {
  }

  /**
   * `{1: 2, "9": 1}`: the second line names no product, so the order is rejected, yet the
   * two rice taken by the first line stay taken.
   */
  lemma RejectionKeepsEarlierDecrements()
    ensures var r := Run(Catalog(), [Line(RawInt(1), RawInt(2)), Line(RawText("9"), RawInt(1))]);
      r.stopped == Some(ProductNotFound) && 1 in r.catalog.entries && r.catalog.entries[1].stock == 13
  {
  }

  /** A negative quantity passes the stock check and raises the stock. */
  lemma NegativeQuantityRaisesStock()
    ensures var r := Run(Catalog(), [Line(RawInt(1), RawInt(-5))]);
      r.stopped == None && 1 in r.catalog.entries && r.catalog.entries[1].stock == 20 && r.total == -60000
  {
  }

  /** The next id for keys 5 and 2 is 6, and for no keys 1. */
  lemma NextIdExamples()
    ensures NextId(Put(Put(Empty<Product>(), 5, Arroz()), 2, Pan())) == 6
    ensures NextId(Empty<Product>()) == 1
  {
  }

  /** Orders totalling 24000 and 1500 make a sales report of 25500; no orders make 0. */
  lemma SalesExample(a: Order, b: Order)
    requires a.total == Some(24000) && b.total == Some(1500)
    ensures SalesTotal([a, b]) == 25500
    ensures SalesTotal([]) == 0
  {
  }

  lemma CatalogValues()
    ensures Values(Catalog()) == [Arroz(), Pan()]
  {
  }

  lemma RiceDoesNotContainBread()
    ensures !Contains(Lower("Arroz"), "pan")
  {
    var h := Lower("Arroz");
    assert h == "arroz";
    assert h[..3][0] == 'a' && h[1..][..3][0] == 'r' && h[1..][1..][..3][0] == 'r';
    assert |h[1..][1..][1..]| < 3;
  }

  /** "pan", "PAN" and "Pan" all lower-case to "pan", which contains itself. */
  lemma BreadSpellings()
    ensures Lower("pan") == "pan" && Lower("PAN") == "pan" && Lower("Pan") == "pan"
    ensures Contains("pan", "pan")
  {
    assert Lower("pan") == "pan";
    assert Lower("PAN") == "pan";
    assert Lower("Pan") == "pan";
  }

  /** Searching "pan" or "PAN" in the rice-and-bread catalog finds just the bread. */
  lemma {:induction false} SearchIgnoresCase(t: Tienda)
    requires t.Valid() && t.productos == Catalog()
    ensures t.SearchByName("pan") == [Pan()]
    ensures t.SearchByName("PAN") == [Pan()]
  {
    CatalogValues();
    RiceDoesNotContainBread();
    BreadSpellings();
    var f := (p: Product) => Contains(Lower(p.name), Lower("pan"));
    var g := (p: Product) => Contains(Lower(p.name), Lower("PAN"));
    assert [Arroz(), Pan()][1..] == [Pan()];
    assert Seqs.Filter([Arroz(), Pan()], f) == [Pan()];
    assert Seqs.Filter([Arroz(), Pan()], g) == [Pan()];
  }
}
