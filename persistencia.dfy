/**
 * The date-range filter of `PersistenciaJSON.filtrar_pedidos_por_fecha` and its date parser
 * `parse_fecha`. The file reading and writing of the persistence layer is not modelled.
 */
module Persistencia {
  import opened Wrappers
  import opened Seqs
  import opened Text
  import opened Records

  /** A calendar date, as `datetime.date`. */
  datatype Date = Date(year: int, month: int, day: int)

  predicate IsLeapYear(y: int)
  {
    y % 4 == 0 && (y % 100 != 0 || y % 400 == 0)
  }

  function DaysInMonth(y: int, m: int): int
    requires 1 <= m <= 12
  {
    if m == 2 then (if IsLeapYear(y) then 29 else 28)
    else if m == 4 || m == 6 || m == 9 || m == 11 then 30
    else 31
  }

  /** A date `datetime.date` can represent: years 1 to 9999 and a day that exists in its month. */
  predicate ValidDate(d: Date)
  {
    1 <= d.year <= 9999 && 1 <= d.month <= 12 && 1 <= d.day <= DaysInMonth(d.year, d.month)
  }

  /** Chronological order of dates, the `<` of `datetime.date`. */
  predicate Before(a: Date, b: Date)
  {
    a.year < b.year || (a.year == b.year && (a.month < b.month || (a.month == b.month && a.day < b.day)))
  }

  /**
   * `datetime.datetime.strptime(s, "%Y-%m-%d").date()` for the zero-padded spelling
   * "YYYY-MM-DD" of a date that exists; any other text gives `None`, as the exception
   * `parse_fecha` catches.
   */
  function ParseDate(s: string): (r: Option<Date>)
    ensures r.Some? ==> ValidDate(r.value)
  {
    if |s| == 10 && s[4] == '-' && s[7] == '-'
       && AllDigits(s[..4]) && AllDigits(s[5..7]) && AllDigits(s[8..])
    then
      var d := Date(DigitsValue(s[..4]), DigitsValue(s[5..7]), DigitsValue(s[8..]));
      if ValidDate(d) then Some(d) else None
    else None
  }

  /** `parse_fecha(pedido.get("fecha"))`: a missing key makes `strptime` raise, which gives `None`. */
  function ParseFecha(v: Option<string>): (r: Option<Date>)
    ensures v.None? ==> r.None?
    ensures r.Some? ==> ValidDate(r.value)
  {
    match v
    case None => None
    case Some(s) => ParseDate(s)
  }

  /** `parse_fecha(b) if b else None`: an absent or empty bound is no bound at all. */
  function Bound(b: Option<string>): (r: Option<Date>)
    ensures b.None? || b == Some("") ==> r.None?
    ensures r.Some? ==> ValidDate(r.value)
  {
    if b.None? || b.value == "" then None else ParseDate(b.value)
  }

  /**
   * The loop's tests: the order's "fecha" parses and lies within the bounds, which are
   * inclusive. An order without a "fecha" is never admitted; with no bounds, every order
   * whose "fecha" parses is.
   */
  function Admits(from: Option<Date>, to: Option<Date>, o: Order): (ok: bool)
    ensures ok ==>
      && ParseFecha(o.date).Some?
      && (from.Some? ==> !Before(ParseFecha(o.date).value, from.value))
      && (to.Some? ==> !Before(to.value, ParseFecha(o.date).value))
    ensures o.date.None? ==> !ok
    ensures from.None? && to.None? ==> (ok <==> ParseFecha(o.date).Some?)
  {
    match ParseFecha(o.date)
    case None => false
    case Some(d) => !(from.Some? && Before(d, from.value)) && !(to.Some? && Before(to.value, d))
  }

  /** The bounds are inclusive: an order dated on both bounds at once is admitted. */
  lemma AdmitsOnTheBounds(d: Date, o: Order)
    requires ParseFecha(o.date) == Some(d)
    ensures Admits(Some(d), Some(d), o)
  {
  }

  /** A bound written as `FormatDate` spells a date is that date. */
  lemma BoundFormatDate(d: Date)
    requires ValidDate(d)
    ensures Bound(Some(FormatDate(d))) == Some(d)
  {
    ParseFormatDate(d);
  }

  /**
   * `filtrar_pedidos_por_fecha(pedidos, desde, hasta)`: the orders whose "fecha" parses and is
   * no earlier than `desde` and no later than `hasta`, each bound counting only when it
   * parses, in list order.
   */
  method FilterByDate(pedidos: seq<Order>, desde: Option<string>, hasta: Option<string>)
    returns (filtered: seq<Order>)
    ensures IsSubsequence(filtered, pedidos)
    ensures KeepsAdmitted(filtered, pedidos, Bound(desde), Bound(hasta))
    ensures forall o :: o in filtered <==> o in pedidos && Admits(Bound(desde), Bound(hasta), o)
    ensures forall o :: o in filtered ==>
      && ParseFecha(o.date).Some?
      && (Bound(desde).Some? ==> !Before(ParseFecha(o.date).value, Bound(desde).value))
      && (Bound(hasta).Some? ==> !Before(Bound(hasta).value, ParseFecha(o.date).value))
    ensures Bound(desde).None? && Bound(hasta).None? ==>
      forall o :: o in filtered <==> o in pedidos && ParseFecha(o.date).Some?
    ensures (forall i :: 0 <= i < |pedidos| ==> pedidos[i].date.None?) ==> filtered == []
  {
    var from := Bound(desde);
    var to := Bound(hasta);
    filtered := [];
    for i := 0 to |pedidos|
      invariant IsSubsequence(filtered, pedidos[..i])
      invariant KeepsAdmitted(filtered, pedidos[..i], from, to)
    {
      var pedido := pedidos[i];
      assert pedidos[..i + 1] == pedidos[..i] + [pedido];
      SubsequenceSnoc(filtered, pedidos[..i], pedido);
      var fecha := ParseFecha(pedido.date);
      if fecha.None? {
        continue;
      }
      if from.Some? && Before(fecha.value, from.value) {
        continue;
      }
      if to.Some? && Before(to.value, fecha.value) {
        continue;
      }
      filtered := filtered + [pedido];
    }
    assert pedidos[..|pedidos|] == pedidos;
    AdmittedMembers(filtered, pedidos, from, to);
  }

  /** `filtered` holds each admitted order of `pedidos` as often as `pedidos` does, and nothing else. */
  ghost predicate KeepsAdmitted(filtered: seq<Order>, pedidos: seq<Order>, from: Option<Date>, to: Option<Date>)
  {
    forall o :: multiset(filtered)[o] == if Admits(from, to, o) then multiset(pedidos)[o] else 0
  }

  /** Counting admitted orders decides membership; orders all without "fecha" leave nothing. */
  lemma AdmittedMembers(filtered: seq<Order>, pedidos: seq<Order>, from: Option<Date>, to: Option<Date>)
    requires KeepsAdmitted(filtered, pedidos, from, to)
    ensures forall o :: o in filtered <==> o in pedidos && Admits(from, to, o)
    ensures (forall i :: 0 <= i < |pedidos| ==> pedidos[i].date.None?) ==> filtered == []
  {
    forall o ensures o in filtered <==> o in pedidos && Admits(from, to, o) {
      assert o in filtered <==> multiset(filtered)[o] > 0;
      assert o in pedidos <==> multiset(pedidos)[o] > 0;
    }
    if filtered != [] {
      var o := filtered[0];
      assert o in filtered;
      var i :| 0 <= i < |pedidos| && pedidos[i] == o;
      assert pedidos[i].date.Some?;
    }
  }

  function Pow10(w: nat): nat
  {
    if w == 0 then 1 else 10 * Pow10(w - 1)
  }

  /** The last `w` decimal digits of `n`, zero-padded on the left, as `%0wd` writes them. */
  function Padded(n: nat, w: nat): (s: string)
    ensures |s| == w && AllDigits(s)
  {
    if w == 0 then [] else Padded(n / 10, w - 1) + [DigitChar(n % 10)]
  }

  lemma {:induction false} PaddedValue(n: nat, w: nat)
    requires n < Pow10(w)
    ensures DigitsValue(Padded(n, w)) == n
  {
    if w > 0 {
      PaddedValue(n / 10, w - 1);
      var s := Padded(n, w);
      assert s[..|s| - 1] == Padded(n / 10, w - 1);
    }
  }

  /** `d.isoformat()`: the zero-padded spelling "YYYY-MM-DD". */
  function FormatDate(d: Date): (s: string)
    requires ValidDate(d)
  {
    Padded(d.year, 4) + "-" + Padded(d.month, 2) + "-" + Padded(d.day, 2)
  }

  /** Every date reads back from its own spelling: the parser accepts what `FormatDate` writes. */
  lemma {:induction false} ParseFormatDate(d: Date)
    requires ValidDate(d)
    ensures ParseDate(FormatDate(d)) == Some(d)
  {
    var s := FormatDate(d);
    assert s[..4] == Padded(d.year, 4);
    assert s[5..7] == Padded(d.month, 2);
    assert s[8..] == Padded(d.day, 2);
    assert Pow10(2) == 100 && Pow10(4) == 10000;
    PaddedValue(d.year, 4);
    PaddedValue(d.month, 2);
    PaddedValue(d.day, 2);
  }
}
