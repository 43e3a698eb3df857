/** The flattening step of `parse_api`: one output row per distinct size presentation
    of the price list, taken from that size's first entry, with a SKU numbered by the
    rows already emitted and prices, availability and display flag derived from the
    entry's amounts in cents. */
module Variants {
  import opened Values
  import opened Text
  import opened Product

  /** One entry of the prices response: `sizeOption.presentation`, the `amount` of
      `lastSoldPriceCents`, and the `amount` of `lowestPriceCents` when that object
      carries one. */
  datatype PriceEntry = PriceEntry(size: string, lastSold: int, lowest: Option<int>)

  /** A price column: the amount in cents, shown as `round(cents / 100, 2)`. */
  datatype Money = Hundredths(cents: int)

  /** One output row: the product's shared columns plus the size-specific ones. */
  datatype Variant = Variant(
    base: BaseRecord,
    sku: string,
    size: string,
    price: Money,
    oldPrice: Money,
    availability: string,
    display: string)

  const IN_STOCK: string := "В наявності"
  const OUT_OF_STOCK: string := "Немає в наявності"
  const SHOWN: string := "Да"
  const HIDDEN: string := "Нет"

  /** The price column. `parse_api` tests the amount against zero and computes the same
      value on both branches, so the price is the last-sold amount either way. */
  function Price(e: PriceEntry): (m: Money)
    ensures m == Hundredths(e.lastSold)
  {
    if e.lastSold != 0 then Hundredths(e.lastSold) else Hundredths(e.lastSold)
  }

  /** The old-price column: the lowest price when it carries an amount, otherwise the
      price column's value. */
  function OldPrice(e: PriceEntry): (m: Money)
    ensures e.lowest.Some? ==> m == Hundredths(e.lowest.value)
    ensures e.lowest.None? ==> m == Price(e)
  {
    match e.lowest
    case Some(amount) => Hundredths(amount)
    case None => Hundredths(e.lastSold)
  }

  /** The availability column: in stock exactly when the last-sold amount is not zero. */
  function Availability(e: PriceEntry): (a: string)
    ensures a == IN_STOCK <==> e.lastSold != 0
    ensures a == OUT_OF_STOCK <==> e.lastSold == 0
  {
    if e.lastSold != 0 then IN_STOCK else OUT_OF_STOCK
  }

  /** The display flag: shown exactly when the last-sold amount is not zero. */
  function Display(e: PriceEntry): (d: string)
    ensures d == SHOWN <==> e.lastSold != 0
    ensures d == HIDDEN <==> e.lastSold == 0
  {
    if e.lastSold != 0 then SHOWN else HIDDEN
  }

  /** The SKU of the `k`-th row of a product: the product SKU for the first row, and
      for later rows the product SKU, a dash, and `str(k)`: a suffix of digits without
      a leading zero that reads back as `k`. */
  function SkuFor(sku: string, k: nat): (r: string)
    ensures k == 0 ==> r == sku
    ensures k > 0 ==> |r| > |sku| + 1 && r[..|sku|] == sku && r[|sku|] == '-'
                      && AllDigits(r[|sku| + 1..]) && ParseDecimal(r[|sku| + 1..]) == k
                      && r[|sku| + 1] != '0'
  {
    if k == 0 then sku
    else
      var r := sku + "-" + Decimal(k);
      DecimalRoundTrip(k);
      assert r[|sku| + 1..] == Decimal(k);
      r
  }

  /** No two rows of a product share a SKU. */
  lemma SkusDistinct(sku: string, j: nat, k: nat)
    requires j != k
    ensures SkuFor(sku, j) != SkuFor(sku, k)
  {
  }

  /** The row built for entry `e` when `k` rows were emitted before it. */
  function MakeVariant(base: BaseRecord, k: nat, e: PriceEntry): Variant {
    Variant(base, SkuFor(base.parentSku, k), e.size, Price(e), OldPrice(e),
            Availability(e), Display(e))
  }

  /** The size presentations occurring in a price list. */
  function Sizes(s: seq<PriceEntry>): set<string> {
    set i | 0 <= i < |s| :: s[i].size
  }

  lemma SizesAppend(s: seq<PriceEntry>, e: PriceEntry)
    ensures Sizes(s + [e]) == Sizes(s) + {e.size}
  {
    var t := s + [e];
    assert forall i :: 0 <= i < |s| ==> t[i] == s[i];
    assert t[|s|] == e;
  }

  /** Where a size presentation first occurs: the least position with that size. */
  function FirstIndex(s: seq<PriceEntry>, x: string): (i: nat)
    requires x in Sizes(s)
    ensures i < |s| && s[i].size == x
    ensures forall j :: 0 <= j < i ==> s[j].size != x
  {
    var init := s[..|s| - 1];
    SizesAppend(init, s[|s| - 1]);
    assert s == init + [s[|s| - 1]];
    if x in Sizes(init) then FirstIndex(init, x) else |s| - 1
  }

  /** Reference definition of the deduplication: the entries whose size did not occur
      earlier in the list, in list order. */
  function FirstOccurrences(s: seq<PriceEntry>): seq<PriceEntry> {
    if s == [] then []
    else
      var init, e := s[..|s| - 1], s[|s| - 1];
      if e.size in Sizes(init) then FirstOccurrences(init) else FirstOccurrences(init) + [e]
  }

  /** The rows for the kept entries, numbered in order. */
  function Rows(base: BaseRecord, kept: seq<PriceEntry>): seq<Variant> {
    seq(|kept|, k requires 0 <= k < |kept| => MakeVariant(base, k, kept[k]))
  }

  /** What `parse_api` returns for a product whose price list is non-empty. */
  function Flatten(base: BaseRecord, prices: seq<PriceEntry>): seq<Variant> {
    Rows(base, FirstOccurrences(prices))
  }

  /** One more entry: a size seen before leaves the rows as they were; a new size adds
      one row, numbered by the rows already there. */
  lemma FlattenAppend(base: BaseRecord, s: seq<PriceEntry>, e: PriceEntry)
    ensures e.size in Sizes(s) ==> Flatten(base, s + [e]) == Flatten(base, s)
    ensures e.size !in Sizes(s) ==>
      Flatten(base, s + [e]) == Flatten(base, s) + [MakeVariant(base, |Flatten(base, s)|, e)]
  {
    var t := s + [e];
    assert t[..|t| - 1] == s;
    var kept := FirstOccurrences(s);
    if e.size !in Sizes(s) {
      assert FirstOccurrences(t) == kept + [e];
      assert Rows(base, kept + [e]) == Rows(base, kept) + [MakeVariant(base, |kept|, e)];
    }
  }

  /** The loop of `parse_api`: `sizeSet` holds the sizes seen so far and `count` the
      rows emitted so far; an entry whose size is in `sizeSet` is skipped, any other
      adds its size and one row whose SKU is numbered by `count`. */
  method FlattenPrices(base: BaseRecord, prices: seq<PriceEntry>) returns (rows: seq<Variant>)
    ensures rows == Flatten(base, prices)
    ensures |rows| == |Sizes(prices)|
    ensures forall k :: 0 <= k < |rows| ==>
              rows[k].base == base && rows[k].sku == SkuFor(base.parentSku, k)
  {
    var count := 0;
    var sizeSet: set<string> := {};
    rows := [];
    for i := 0 to |prices|
      invariant sizeSet == Sizes(prices[..i])
      invariant count == |rows|
      invariant rows == Flatten(base, prices[..i])
    {
      var e := prices[i];
      assert prices[..i + 1] == prices[..i] + [e];
      SizesAppend(prices[..i], e);
      FlattenAppend(base, prices[..i], e);
      if e.size in sizeSet {
        continue;
      }
      sizeSet := sizeSet + {e.size};
      rows := rows + [MakeVariant(base, count, e)];
      count := count + 1;
    }
    assert prices[..|prices|] == prices;
    FlattenCount(base, prices);
  }

  /** The kept entries have pairwise distinct sizes and cover every size of the list. */
  lemma {:induction false} FirstOccurrencesSizes(s: seq<PriceEntry>)
    ensures var r := FirstOccurrences(s);
      && (forall k, l :: 0 <= k < l < |r| ==> r[k].size != r[l].size)
      && Sizes(r) == Sizes(s)
  {
    if s != [] {
      var init, e := s[..|s| - 1], s[|s| - 1];
      assert s == init + [e];
      FirstOccurrencesSizes(init);
      SizesAppend(init, e);
      var ri := FirstOccurrences(init);
      if e.size !in Sizes(init) {
        var r := ri + [e];
        SizesAppend(ri, e);
        forall k, l | 0 <= k < l < |r| ensures r[k].size != r[l].size {
          assert r[k] == ri[k];
          if l < |ri| {
            assert r[l] == ri[l];
          } else {
            assert r[k].size in Sizes(ri);
          }
        }
      }
    }
  }

  /** Appending an entry keeps the first position of every size seen before. */
  lemma FirstIndexPrefix(init: seq<PriceEntry>, e: PriceEntry, x: string)
    requires x in Sizes(init)
    ensures x in Sizes(init + [e]) && FirstIndex(init + [e], x) == FirstIndex(init, x)
  {
    var s := init + [e];
    assert s[..|s| - 1] == init;
    SizesAppend(init, e);
  }

  /** Each entry of `r` is the first entry of its size in `s`, and the entries of `r`
      follow the order of those first entries. */
  ghost predicate FirstEntriesInOrder(s: seq<PriceEntry>, r: seq<PriceEntry>) {
    && (forall k :: 0 <= k < |r| ==> r[k].size in Sizes(s))
    && (forall k :: 0 <= k < |r| ==> r[k] == s[FirstIndex(s, r[k].size)])
    && (forall k, l :: 0 <= k < l < |r| ==>
          FirstIndex(s, r[k].size) < FirstIndex(s, r[l].size))
  }

  /** The kept entries are first entries, in first-occurrence order. */
  lemma {:induction false} FirstOccurrencesShape(s: seq<PriceEntry>)
    ensures FirstEntriesInOrder(s, FirstOccurrences(s))
  {
    if s != [] {
      var init, e := s[..|s| - 1], s[|s| - 1];
      assert s == init + [e];
      var ri := FirstOccurrences(init);
      FirstOccurrencesShape(init);
      assert FirstEntriesInOrder(init, ri);
      SizesAppend(init, e);
      forall k | 0 <= k < |ri|
        ensures FirstIndex(s, ri[k].size) == FirstIndex(init, ri[k].size) < |init|
      {
        FirstIndexPrefix(init, e, ri[k].size);
      }
      var r := if e.size in Sizes(init) then ri else ri + [e];
      assert FirstOccurrences(s) == r;
      assert e.size !in Sizes(init) ==> FirstIndex(s, e.size) == |init|;
      forall k | 0 <= k < |r|
        ensures r[k].size in Sizes(s) && r[k] == s[FirstIndex(s, r[k].size)]
      {
        if k < |ri| {
          assert r[k] == ri[k];
          assert ri[k] == init[FirstIndex(init, ri[k].size)];
        } else {
          assert r[k] == e;
        }
      }
      forall k, l | 0 <= k < l < |r|
        ensures FirstIndex(s, r[k].size) < FirstIndex(s, r[l].size)
      {
        assert r[k] == ri[k];
        if l < |ri| {
          assert r[l] == ri[l];
          assert FirstIndex(init, ri[k].size) < FirstIndex(init, ri[l].size);
        } else {
          assert r[l] == e;
        }
      }
    }
  }

  /** As many kept entries as there are distinct sizes. */
  lemma {:induction false} FirstOccurrencesCount(s: seq<PriceEntry>)
    ensures |FirstOccurrences(s)| == |Sizes(s)|
  {
    if s == [] {
      assert Sizes(s) == {};
    } else {
      var init, e := s[..|s| - 1], s[|s| - 1];
      assert s == init + [e];
      FirstOccurrencesCount(init);
      SizesAppend(init, e);
      if e.size !in Sizes(init) {
        assert |Sizes(s)| == |Sizes(init)| + 1;
      }
    }
  }

  lemma FlattenCount(base: BaseRecord, prices: seq<PriceEntry>)
    ensures |Flatten(base, prices)| == |Sizes(prices)|
  {
    FirstOccurrencesCount(prices);
  }

  /** The rows of one product: exactly one per distinct size of the price list, each
      built from that size's first entry with the SKU numbered by its position, in the
      order of those first entries. */
  lemma FlattenShape(base: BaseRecord, prices: seq<PriceEntry>)
    ensures var rows := Flatten(base, prices);
      && |rows| == |Sizes(prices)|
      && (forall k :: 0 <= k < |rows| ==> rows[k].size in Sizes(prices))
      && (forall x :: x in Sizes(prices) ==> exists k :: 0 <= k < |rows| && rows[k].size == x)
      && (forall k :: 0 <= k < |rows| ==>
            rows[k] == MakeVariant(base, k, prices[FirstIndex(prices, rows[k].size)]))
      && (forall k, l :: 0 <= k < l < |rows| ==>
            FirstIndex(prices, rows[k].size) < FirstIndex(prices, rows[l].size))
  {
    var kept := FirstOccurrences(prices);
    FirstOccurrencesSizes(prices);
    FirstOccurrencesShape(prices);
    FirstOccurrencesCount(prices);
    var rows := Flatten(base, prices);
    assert |rows| == |kept|;
    forall k | 0 <= k < |rows|
      ensures rows[k].size in Sizes(prices)
      ensures rows[k] == MakeVariant(base, k, prices[FirstIndex(prices, rows[k].size)])
    {
      assert rows[k] == MakeVariant(base, k, kept[k]);
    }
    forall k, l | 0 <= k < l < |rows|
      ensures FirstIndex(prices, rows[k].size) < FirstIndex(prices, rows[l].size)
    {
      assert rows[k].size == kept[k].size && rows[l].size == kept[l].size;
    }
    forall x | x in Sizes(prices) ensures exists k :: 0 <= k < |rows| && rows[k].size == x {
      assert x in Sizes(kept);
      var k :| 0 <= k < |kept| && kept[k].size == x;
      assert rows[k].size == x;
    }
  }

  /** No two rows of a product share a SKU. */
  lemma FlattenSkusDistinct(base: BaseRecord, prices: seq<PriceEntry>)
    ensures var rows := Flatten(base, prices);
      forall k, l :: 0 <= k < l < |rows| ==> rows[k].sku != rows[l].sku
  {
    var rows := Flatten(base, prices);
    forall k, l | 0 <= k < l < |rows| ensures rows[k].sku != rows[l].sku {
      assert rows[k].sku == SkuFor(base.parentSku, k) && rows[l].sku == SkuFor(base.parentSku, l);
      SkusDistinct(base.parentSku, k, l);
    }
  }

  /** In every row the availability and display columns agree: in stock exactly when
      shown. */
  lemma FlattenFlagsAgree(base: BaseRecord, prices: seq<PriceEntry>)
    ensures var rows := Flatten(base, prices);
      forall k :: 0 <= k < |rows| ==> (rows[k].availability == IN_STOCK <==> rows[k].display == SHOWN)
  {
  }
}
