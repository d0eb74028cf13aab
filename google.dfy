/**
 * The Google command: for each model-year of a window of the listing, search
 * for its configurations page and record each configuration as a Variation
 * of the model-year with its starting price. Searching, fetching and the HTML
 * parser are outside the model: the command receives what they yield.
 */
module Google {
  import opened Wrappers
  import opened Text
  import opened Query
  import opened CarModels
  import opened Catalog
  import Database

  const GoogleHome := "https://www.google.com"
  const QuerySuffix := "+configurations"
  const PriceMark := "From $"

  /** The search query: the car name with `+` for each space, then `+configurations`. */
  function SearchQuery(carName: string): (r: string)
    ensures |r| == |carName| + |QuerySuffix| && ' ' !in r
    ensures r[..|carName|] == Replace(carName, ' ', "+") && r[|carName|..] == QuerySuffix
  {
    Replace(carName, ' ', "+") + QuerySuffix
  }

  /** A car name without `+` is read back from its query. */
  lemma SearchQueryReadBack(carName: string)
    requires '+' !in carName
    ensures Replace(SearchQuery(carName)[..|carName|], '+', " ") == carName
  {
    ReplaceBack(carName, ' ', '+');
  }

  function SearchUrl(carName: string): string {
    GoogleHome + "/search?q=" + SearchQuery(carName)
  }

  /** A site-relative link is made absolute on the search host; any other link is kept. */
  function AbsoluteUrl(href: string): (r: string)
    ensures StartsWith(href, "/") ==> r == GoogleHome + href
    ensures !StartsWith(href, "/") ==> r == href
  {
    if StartsWith(href, "/") then GoogleHome + href else href
  }

  /** A configuration of the carousel: its name, verbatim, and its starting price. */
  datatype Item = Item(name: string, price: int)

  /**
   * One carousel text `<name>From $<price>`: it must split on the mark into
   * exactly two fields, and the second, without its commas, must be an
   * integer; otherwise the unpacking or `int` raises (None).
   */
  function ParseItem(text: string): (r: Option<Item>)
    ensures var parts := SplitOn(text, PriceMark);
      r.Some? <==> |parts| == 2 && ParseInt(Replace(parts[1], ',', "")).Some?
    ensures r.Some? ==>
      var parts := SplitOn(text, PriceMark);
      && text == r.value.name + PriceMark + parts[1]
      && !Contains(r.value.name, PriceMark)
      && ParseInt(Replace(parts[1], ',', "")) == Some(r.value.price)
  {
    var parts := SplitOn(text, PriceMark);
    if |parts| != 2 then None
    else
      var price := ParseInt(Replace(parts[1], ',', ""));
      if price.None? then None
      else
        JoinSplitOn(text, PriceMark);
        SplitOnFirstField(text, PriceMark);
        assert Join(parts, PriceMark) == parts[0] + PriceMark + parts[1];
        Some(Item(parts[0], price.value))
  }

  /** The mark holds a `$`, so it occurs nowhere in a text without one. */
  lemma NoMark(x: string)
    requires '$' !in x
    ensures forall j :: 0 <= j <= |x| ==> !OccursAt(x, PriceMark, j)
  {
    forall j | 0 <= j <= |x| ensures !OccursAt(x, PriceMark, j) {
      if j + |PriceMark| <= |x| {
        assert x[j..j + |PriceMark|][5] == x[j + 5] != PriceMark[5];
      }
    }
  }

  /** Where `$` is absent from the name and the price text, the mark is found only between them. */
  lemma SplitAtMark(name: string, rest: string)
    requires '$' !in name && '$' !in rest
    ensures SplitOn(name + PriceMark + rest, PriceMark) == [name, rest]
  {
    var s := name + PriceMark + rest;
    var i := |name|;
    assert s[i..i + |PriceMark|] == PriceMark;
    assert OccursAt(s, PriceMark, i);
    forall j | 0 <= j < i ensures !OccursAt(s, PriceMark, j) {
      if j + 5 < i {
        assert s[j..j + |PriceMark|][5] == name[j + 5] != PriceMark[5];
      } else {
        assert s[j..j + |PriceMark|][i - j] == PriceMark[0] != PriceMark[i - j];
      }
    }
    assert Find(s, PriceMark) == Some(i);
    assert s[i + |PriceMark|..] == rest;
    NoMark(rest);
    assert Find(rest, PriceMark).None?;
    assert s[..i] == name;
  }

  /** An item written as name, mark and a price in plain digits is read back. */
  lemma ParseItemOf(name: string, price: nat)
    requires '$' !in name
    ensures ParseItem(name + PriceMark + NatToString(price)) == Some(Item(name, price))
  {
    var digits := NatToString(price);
    assert '$' !in digits && ',' !in digits by {
      assert forall k :: 0 <= k < |digits| ==> IsDigit(digits[k]);
    }
    SplitAtMark(name, digits);
    ReplaceAbsent(digits, ',', "");
    DigitsValueOfNat(price);
    ParseDigits(digits);
  }

  /** A thousands separator between two groups of digits is dropped and the groups are joined. */
  lemma {:induction false} SeparatorDropped(a: string, b: string)
    requires ',' !in a && ',' !in b
    ensures Replace(a + [','] + b, ',', "") == a + b
  {
    ReplaceAppend(a + [','], b, ',', "");
    ReplaceAppend(a, [','], ',', "");
    ReplaceAbsent(a, ',', "");
    ReplaceAbsent(b, ',', "");
    ReplaceSingle(',', "");
    assert a + [] == a;
  }

  lemma ReplaceSingle(c: char, with: string)
    ensures Replace([c], c, with) == with
  {
    assert [c][1..] == [];
  }

  /** A price written with a thousands separator is read as its digit groups joined. */
  lemma ParseItemThousands(name: string, high: string, low: string)
    requires '$' !in name && |high| >= 1 && AllDigits(high) && AllDigits(low)
    ensures ParseItem(name + PriceMark + (high + [','] + low)) == Some(Item(name, DigitsValue(high + low)))
  {
    var rest := high + [','] + low;
    assert ',' !in high && ',' !in low && '$' !in rest by {
      assert forall k :: 0 <= k < |high| ==> IsDigit(high[k]);
      assert forall k :: 0 <= k < |low| ==> IsDigit(low[k]);
    }
    SplitAtMark(name, rest);
    SeparatorDropped(high, low);
    assert AllDigits(high + low) by {
      assert forall k :: 0 <= k < |high + low| ==> (high + low)[k] == if k < |high| then high[k] else low[k - |high|];
    }
    ParseDigits(high + low);
  }

  // ---------------------------------------------------------------- the item loop of one car

  /** Why the item loop of a car ended before its last item. */
  datatype Stop = Malformed | Raised(error: StoreError)

  /** Only variations, prices and the id counter differ, and the two tables only grow. */
  ghost predicate OnlyItemsAdded(a: Db, b: Db) {
    && b == a.(variations := b.variations, prices := b.prices, nextId := b.nextId)
    && a.variations <= b.variations && a.prices <= b.prices
  }

  lemma OnlyItemsAddedTrans(a: Db, b: Db, c: Db)
    requires OnlyItemsAdded(a, b) && OnlyItemsAdded(b, c)
    ensures OnlyItemsAdded(a, c)
  {
    assert c.variations[..|a.variations|] == b.variations[..|a.variations|];
    assert c.prices[..|a.prices|] == b.prices[..|a.prices|];
  }

  /** The key under which an item's variation is filed for model-year `car`. */
  function ItemKey(car: int, item: Item): VariationKey {
    VariationKey(OfModelYear(car), item.name)
  }

  /** `p` is a price of the one variation row that `key` has. */
  ghost predicate PricedAs(db: Db, key: VariationKey, p: Price) {
    && |Hits(db.variations, KeyOfVariation, key)| == 1
    && p in db.prices
    && p.car == db.variations[Hits(db.variations, KeyOfVariation, key)[0]].id
  }

  /**
   * One carousel item: parse it, `get_or_create` its variation under the
   * model-year, then create its price in dollars.
   */
  function AddItem(db: Db, car: int, text: string): (r: (Db, Option<Stop>))
    requires WellFormed(db) && car in Ids(db.modelYears, ModelYearId)
    ensures WellFormed(r.0) && OnlyItemsAdded(db, r.0)
    ensures r.1 == Some(Malformed) <==> ParseItem(text).None?
    ensures r.1.Some? ==> r.0 == db || r.1 == Some(Raised(IntegrityError))
    ensures ParseItem(text).Some? ==>
      r.0.variations == GetOrCreateVariation(db, OfModelYear(car), ParseItem(text).value.name).0.variations
    ensures r.0.variations == db.variations
            || (r.0.variations == db.variations + [r.0.variations[|db.variations|]]
                && r.0.variations[|db.variations|].parent == OfModelYear(car))
    ensures r.1.None? ==>
      var item := ParseItem(text).value;
      && |r.0.prices| == |db.prices| + 1
      && r.0.prices[|db.prices|].amount == item.price
      && r.0.prices[|db.prices|].currency == DefaultCurrency
      && PricedAs(r.0, ItemKey(car, item), r.0.prices[|db.prices|])
  {
    match ParseItem(text)
    case None => (db, Some(Malformed))
    case Some(item) =>
      var (d1, got) := GetOrCreateVariation(db, OfModelYear(car), item.name);
      if got.Err? then (d1, Some(Raised(got.error)))
      else
        var v := got.value.row;
        assert v.id in Ids(d1.variations, VariationId);
        var (d2, price) := CreatePrice(d1, v.id, item.price, DefaultCurrency);
        if price.Err? then (d2, Some(Raised(price.error)))
        else
          SingleHitRow(d2.variations, KeyOfVariation, ItemKey(car, item), v);
          (d2, None)
  }

  /** An item whose variation already has its price raises the one-to-one violation and writes nothing. */
  lemma PricedRaises(db: Db, car: int, text: string, p: Price)
    requires WellFormed(db) && car in Ids(db.modelYears, ModelYearId)
    requires ParseItem(text).Some? && PricedAs(db, ItemKey(car, ParseItem(text).value), p)
    ensures AddItem(db, car, text) == (db, Some(Raised(IntegrityError)))
  {
    var item := ParseItem(text).value;
    var (d1, got) := GetOrCreateVariation(db, OfModelYear(car), item.name);
    var h := Hits(db.variations, KeyOfVariation, ItemKey(car, item));
    assert d1 == db && got.value.row == db.variations[h[0]] by {
      var row := got.value.row;
      SingleHitRow(db.variations, KeyOfVariation, ItemKey(car, item), row);
    }
    AddItemFoundPriced(db, car, text, got.value, p);
  }

  /** The variation is found unchanged and already has the price `p`: the price creation raises. */
  lemma AddItemFoundPriced(db: Db, car: int, text: string, found: Got<Variation>, p: Price)
    requires WellFormed(db) && car in Ids(db.modelYears, ModelYearId) && ParseItem(text).Some?
    requires GetOrCreateVariation(db, OfModelYear(car), ParseItem(text).value.name) == (db, Ok(found))
    requires p in db.prices && p.car == found.row.id
    ensures AddItem(db, car, text) == (db, Some(Raised(IntegrityError)))
  {
    var item := ParseItem(text).value;
    assert found.row.id in Ids(db.variations, VariationId);
    var (d2, price) := CreatePrice(db, found.row.id, item.price, DefaultCurrency);
    assert d2 == db && price == Err(IntegrityError);
  }

  /** The same item twice in a row: the second raises, because its variation is already priced. */
  lemma AddItemRepeat(db: Db, car: int, text: string)
    requires WellFormed(db) && car in Ids(db.modelYears, ModelYearId)
    requires AddItem(db, car, text).1.None?
    ensures var d := AddItem(db, car, text).0;
            AddItem(d, car, text) == (d, Some(Raised(IntegrityError)))
  {
    var d := AddItem(db, car, text).0;
    PricedRaises(d, car, text, d.prices[|db.prices|]);
  }

  /** Pricing survives any growth of the prices that keeps the variation row of the key. */
  lemma PricedWhenGrown(a: Db, b: Db, key: VariationKey, p: Price)
    requires PricedAs(a, key, p) && a.prices <= b.prices
    requires |Hits(b.variations, KeyOfVariation, key)| == 1
    requires b.variations[Hits(b.variations, KeyOfVariation, key)[0]] == a.variations[Hits(a.variations, KeyOfVariation, key)[0]]
    ensures PricedAs(b, key, p)
  {
    var i :| 0 <= i < |a.prices| && a.prices[i] == p;
    assert b.prices[i] == p;
  }

  /** A priced variation stays priced, and keeps its row, whatever one more item does. */
  lemma AddItemKeepsPriced(db: Db, car: int, text: string, key: VariationKey, p: Price)
    requires WellFormed(db) && car in Ids(db.modelYears, ModelYearId)
    requires PricedAs(db, key, p)
    ensures PricedAs(AddItem(db, car, text).0, key, p)
  {
    var r := AddItem(db, car, text);
    if r.0 != db {
      var item := ParseItem(text).value;
      var newRow := Variation(db.nextId, OfModelYear(car), item.name, DefaultFuel);
      GetOrCreateKeepsSingle(db.variations, KeyOfVariation, ItemKey(car, item), newRow, key);
      PricedWhenGrown(db, r.0, key, p);
    }
  }

  /**
   * The loop over the carousel items of one car: each item in turn, until
   * one is malformed or a database call raises; the exception is caught by
   * the command's catch-all, so the rows written before it stay.
   */
  function AddItems(db: Db, car: int, texts: seq<string>): (r: (Db, Option<Stop>))
    requires WellFormed(db) && car in Ids(db.modelYears, ModelYearId)
    ensures WellFormed(r.0) && OnlyItemsAdded(db, r.0)
    ensures r.1.None? ==> |r.0.prices| == |db.prices| + |texts|
    decreases |texts|
  {
    if texts == [] then (db, None)
    else
      var (d1, stop) := AddItem(db, car, texts[0]);
      if stop.Some? then (d1, stop)
      else
        var r := AddItems(d1, car, texts[1..]);
        OnlyItemsAddedTrans(db, d1, r.0);
        r
  }

  lemma AddItemsFirst(db: Db, car: int, texts: seq<string>, after: Db, stop: Option<Stop>)
    requires WellFormed(db) && car in Ids(db.modelYears, ModelYearId) && texts != []
    requires (after, stop) == AddItem(db, car, texts[0])
    ensures WellFormed(after) && car in Ids(after.modelYears, ModelYearId) && OnlyItemsAdded(db, after)
    ensures AddItems(db, car, texts) == if stop.Some? then (after, stop) else AddItems(after, car, texts[1..])
  {
  }

  /** `p` is the dollar price at the amount item `text` carries. */
  ghost predicate ItemPrice(p: Price, text: string) {
    ParseItem(text).Some? && p.amount == ParseItem(text).value.price && p.currency == DefaultCurrency
  }

  /** From position `base` on, `prices` holds the price of each item of `texts`, in item order. */
  ghost predicate PricedItems(prices: seq<Price>, base: nat, texts: seq<string>) {
    base + |texts| <= |prices| && forall i :: 0 <= i < |texts| ==> ItemPrice(prices[base + i], texts[i])
  }

  lemma PricedItemsCons(prices: seq<Price>, base: nat, texts: seq<string>)
    requires texts != [] && base < |prices| && ItemPrice(prices[base], texts[0])
    requires PricedItems(prices, base + 1, texts[1..])
    ensures PricedItems(prices, base, texts)
  {
    forall i | 0 <= i < |texts| ensures ItemPrice(prices[base + i], texts[i]) {
      if i > 0 {
        assert texts[i] == texts[1..][i - 1];
      }
    }
  }

  /** A loop that ran to the end added one dollar price per item, in item order, at the parsed amount. */
  lemma {:induction false} AddItemsPrices(db: Db, car: int, texts: seq<string>)
    requires WellFormed(db) && car in Ids(db.modelYears, ModelYearId)
    ensures var r := AddItems(db, car, texts);
            r.1.None? ==> PricedItems(r.0.prices, |db.prices|, texts)
    decreases |texts|
  {
    var r := AddItems(db, car, texts);
    if texts != [] && r.1.None? {
      var (d1, stop) := AddItem(db, car, texts[0]);
      AddItemsFirst(db, car, texts, d1, stop);
      assert r == AddItems(d1, car, texts[1..]);
      AddItemsPrices(d1, car, texts[1..]);
      assert ItemPrice(d1.prices[|db.prices|], texts[0]);
      assert r.0.prices[|db.prices|] == d1.prices[|db.prices|];
      PricedItemsCons(r.0.prices, |db.prices|, texts);
    }
  }

  /** The loop over `xs + ys` is the loop over `xs`, then, if that ran to the end, the loop over `ys`. */
  lemma {:induction false} AddItemsAppend(db: Db, car: int, xs: seq<string>, ys: seq<string>)
    requires WellFormed(db) && car in Ids(db.modelYears, ModelYearId)
    ensures var first := AddItems(db, car, xs);
            AddItems(db, car, xs + ys) == if first.1.Some? then first else AddItems(first.0, car, ys)
    decreases |xs|
  {
    if xs != [] {
      assert (xs + ys)[0] == xs[0] && (xs + ys)[1..] == xs[1..] + ys;
      var (d1, stop) := AddItem(db, car, xs[0]);
      if stop.None? {
        AddItemsAppend(d1, car, xs[1..], ys);
      }
    } else {
      assert xs + ys == ys;
    }
  }

  /** An item that does not parse writes nothing and ends the loop. */
  lemma MalformedWritesNothing(db: Db, car: int, text: string)
    requires WellFormed(db) && car in Ids(db.modelYears, ModelYearId) && ParseItem(text).None?
    ensures AddItem(db, car, text) == (db, Some(Malformed))
  {
  }

  /**
   * A malformed item ends the loop: the items before it stay committed and
   * the items after it are not looked at.
   */
  lemma MalformedKeepsEarlier(db: Db, car: int, xs: seq<string>, bad: string, ys: seq<string>)
    requires WellFormed(db) && car in Ids(db.modelYears, ModelYearId)
    requires AddItems(db, car, xs).1.None? && ParseItem(bad).None?
    ensures AddItems(db, car, xs + [bad] + ys) == (AddItems(db, car, xs).0, Some(Malformed))
  {
    Regroup(xs, bad, ys);
    AddItemsAppend(db, car, xs, [bad] + ys);
    MalformedFirst(AddItems(db, car, xs).0, car, bad, ys);
  }

  lemma Regroup(xs: seq<string>, bad: string, ys: seq<string>)
    ensures xs + [bad] + ys == xs + ([bad] + ys)
  {
  }

  lemma MalformedFirst(db: Db, car: int, bad: string, ys: seq<string>)
    requires WellFormed(db) && car in Ids(db.modelYears, ModelYearId) && ParseItem(bad).None?
    ensures AddItems(db, car, [bad] + ys) == (db, Some(Malformed))
  {
    MalformedWritesNothing(db, car, bad);
    AddItemsFirst(db, car, [bad] + ys, db, Some(Malformed));
  }

  /** A priced variation stays priced through any item loop. */
  lemma {:induction false} AddItemsKeepPriced(db: Db, car: int, texts: seq<string>, key: VariationKey, p: Price)
    requires WellFormed(db) && car in Ids(db.modelYears, ModelYearId)
    requires PricedAs(db, key, p)
    ensures PricedAs(AddItems(db, car, texts).0, key, p)
    decreases |texts|
  {
    if texts != [] {
      AddItemKeepsPriced(db, car, texts[0], key, p);
      var (d1, stop) := AddItem(db, car, texts[0]);
      if stop.None? {
        AddItemsKeepPriced(d1, car, texts[1..], key, p);
      }
    }
  }

  /**
   * Running a car's items a second time: the first item's variation is found
   * again, and creating its price raises the one-to-one violation, so the
   * rerun writes nothing.
   */
  lemma AddItemsRerun(db: Db, car: int, texts: seq<string>)
    requires WellFormed(db) && car in Ids(db.modelYears, ModelYearId)
    requires texts != [] && AddItems(db, car, texts).1.None?
    ensures var d := AddItems(db, car, texts).0;
            AddItems(d, car, texts) == (d, Some(Raised(IntegrityError)))
  {
    var (d1, stop) := AddItem(db, car, texts[0]);
    var item := ParseItem(texts[0]).value;
    var p := d1.prices[|db.prices|];
    AddItemsKeepPriced(d1, car, texts[1..], ItemKey(car, item), p);
    var d := AddItems(db, car, texts).0;
    PricedRaises(d, car, texts[0], p);
  }

  /** Once a variation is priced, a later item naming it stops the loop. */
  lemma PricedStops(db: Db, car: int, xs: seq<string>, text: string, ys: seq<string>, p: Price)
    requires WellFormed(db) && car in Ids(db.modelYears, ModelYearId)
    requires ParseItem(text).Some? && PricedAs(db, ItemKey(car, ParseItem(text).value), p)
    ensures AddItems(db, car, xs + ([text] + ys)).1.Some?
  {
    AddItemsAppend(db, car, xs, [text] + ys);
    var c := AddItems(db, car, xs);
    if c.1.None? {
      AddItemsKeepPriced(db, car, xs, ItemKey(car, ParseItem(text).value), p);
      PricedRaises(c.0, car, text, p);
      AddItemsFirst(c.0, car, [text] + ys, c.0, Some(Raised(IntegrityError)));
    }
  }

  lemma Pieces<T>(s: seq<T>, i: nat, j: nat)
    requires i < j < |s|
    ensures s == s[..i] + ([s[i]] + (s[i + 1..j] + ([s[j]] + s[j + 1..])))
  {
    assert s[j..] == [s[j]] + s[j + 1..];
    assert s[i + 1..] == s[i + 1..j] + s[j..];
    assert s[i..] == [s[i]] + s[i + 1..];
    assert s == s[..i] + s[i..];
  }

  /**
   * Two items naming the same variation of one car can never both get a
   * price: the loop over them stops before its end.
   */
  lemma SameNameStops(db: Db, car: int, texts: seq<string>, i: nat, j: nat)
    requires WellFormed(db) && car in Ids(db.modelYears, ModelYearId)
    requires i < j < |texts|
    requires ParseItem(texts[i]).Some? && ParseItem(texts[j]).Some?
    requires ParseItem(texts[i]).value.name == ParseItem(texts[j]).value.name
    ensures AddItems(db, car, texts).1.Some?
  {
    var front, mid, back := texts[..i], texts[i + 1..j], texts[j + 1..];
    var rest := mid + ([texts[j]] + back);
    Pieces(texts, i, j);
    AddItemsAppend(db, car, front, [texts[i]] + rest);
    var a := AddItems(db, car, front);
    if a.1.None? {
      var (b, stop) := AddItem(a.0, car, texts[i]);
      AddItemsFirst(a.0, car, [texts[i]] + rest, b, stop);
      assert ([texts[i]] + rest)[1..] == rest;
      if stop.None? {
        PricedStops(b, car, mid, texts[j], back, b.prices[|a.0.prices|]);
      }
    }
  }

  /** Every row that `b` has beyond the rows of `a` hangs under one of `parents`. */
  ghost predicate NewUnder(a: seq<Variation>, b: seq<Variation>, parents: set<Parent>) {
    forall k :: |a| <= k < |b| ==> b[k].parent in parents
  }

  lemma NewUnderTrans(a: seq<Variation>, b: seq<Variation>, c: seq<Variation>, p: set<Parent>, q: set<Parent>, all: set<Parent>)
    requires a <= b <= c && p <= all && q <= all
    requires NewUnder(a, b, p) && NewUnder(b, c, q)
    ensures NewUnder(a, c, all)
  {
    forall k | |a| <= k < |c| ensures c[k].parent in all {
      if k < |b| {
        assert c[k] == b[k];
      }
    }
  }

  /** Every variation row an item loop creates hangs under the loop's model-year. */
  lemma {:induction false} AddItemsParents(db: Db, car: int, texts: seq<string>)
    requires WellFormed(db) && car in Ids(db.modelYears, ModelYearId)
    ensures NewUnder(db.variations, AddItems(db, car, texts).0.variations, {OfModelYear(car)})
    decreases |texts|
  {
    if texts != [] {
      var (d1, stop) := AddItem(db, car, texts[0]);
      AddItemsFirst(db, car, texts, d1, stop);
      assert NewUnder(db.variations, d1.variations, {OfModelYear(car)});
      if stop.None? {
        AddItemsParents(d1, car, texts[1..]);
        var d := AddItems(db, car, texts).0;
        assert d == AddItems(d1, car, texts[1..]).0;
        NewUnderTrans(db.variations, d1.variations, d.variations, {OfModelYear(car)}, {OfModelYear(car)}, {OfModelYear(car)});
      }
    }
  }

  // ---------------------------------------------------------------- one car

  /** An anchor of the search results: its text when it is a single string, and its `href`. */
  datatype Link = Link(text: Option<string>, href: Option<string>)

  /** The configurations page: its status, whether it holds the carousel, and the texts of its `klitem-tr` anchors. */
  datatype ConfigPage = ConfigPage(status: int, carousel: bool, items: seq<string>)

  /** An anchor with an `href` whose text mentions configurations in any letter case. */
  predicate IsConfigurationsLink(l: Link) {
    l.href.Some? && l.text.Some? && Contains(Lower(l.text.value), "configurations")
  }

  /** The absolute address of the first configurations anchor, if there is one. */
  function ConfigUrl(links: seq<Link>): (r: Option<string>)
    ensures r.None? <==> forall i :: 0 <= i < |links| ==> !IsConfigurationsLink(links[i])
    ensures r.Some? ==>
      exists i :: 0 <= i < |links| && IsConfigurationsLink(links[i])
        && (forall j :: 0 <= j < i ==> !IsConfigurationsLink(links[j]))
        && r.value == AbsoluteUrl(links[i].href.value)
  {
    match FirstWhere(links, IsConfigurationsLink)
    case None => None
    case Some(i) => Some(AbsoluteUrl(links[i].href.value))
  }

  /** `raise_for_status`: the client and server error ranges. */
  predicate IsErrorStatus(status: int) {
    400 <= status < 600
  }

  /** Why a car was given up before its first item; every one is caught by the catch-all. */
  datatype Failure = SearchRaised | NoConfigurationsLink | PageRaised | ErrorStatus | NoCarousel

  /**
   * Everything before the item loop: search, follow the first configurations
   * anchor, check the status and the carousel, and list the item texts.
   */
  function ItemsFor(carName: string, search: string -> Option<seq<Link>>, fetchPage: string -> Option<ConfigPage>): (r: Result<seq<string>, Failure>)
    ensures r == Err(SearchRaised) <==> search(SearchUrl(carName)).None?
    ensures r == Err(NoConfigurationsLink) <==>
      search(SearchUrl(carName)).Some? && ConfigUrl(search(SearchUrl(carName)).value).None?
    ensures r.Ok? <==>
      && search(SearchUrl(carName)).Some?
      && ConfigUrl(search(SearchUrl(carName)).value).Some?
      && fetchPage(ConfigUrl(search(SearchUrl(carName)).value).value).Some?
      && !IsErrorStatus(fetchPage(ConfigUrl(search(SearchUrl(carName)).value).value).value.status)
      && fetchPage(ConfigUrl(search(SearchUrl(carName)).value).value).value.carousel
    ensures r.Ok? ==> r.value == fetchPage(ConfigUrl(search(SearchUrl(carName)).value).value).value.items
  {
    match search(SearchUrl(carName))
    case None => Err(SearchRaised)
    case Some(links) =>
      match ConfigUrl(links)
      case None => Err(NoConfigurationsLink)
      case Some(url) =>
        match fetchPage(url)
        case None => Err(PageRaised)
        case Some(page) =>
          if IsErrorStatus(page.status) then Err(ErrorStatus)
          else if !page.carousel then Err(NoCarousel)
          else Ok(page.items)
  }

  /** How the work for one car ended. */
  datatype Outcome = Scraped | Failed(failure: Failure) | Stopped(stop: Stop)

  /** `scrape_variation_google`: the item loop over the configurations of one model-year. */
  function ScrapeVariation(db: Db, carName: string, car: int, search: string -> Option<seq<Link>>, fetchPage: string -> Option<ConfigPage>): (r: (Db, Outcome))
    requires WellFormed(db) && car in Ids(db.modelYears, ModelYearId)
    ensures WellFormed(r.0) && OnlyItemsAdded(db, r.0)
    ensures r.1.Failed? <==> ItemsFor(carName, search, fetchPage).Err?
    ensures r.1.Failed? ==> r.0 == db && r.1.failure == ItemsFor(carName, search, fetchPage).error
    ensures !r.1.Failed? ==>
      var loop := AddItems(db, car, ItemsFor(carName, search, fetchPage).value);
      r.0 == loop.0 && (r.1 == Scraped <==> loop.1.None?) && (r.1.Stopped? ==> r.1.stop == loop.1.value)
  {
    match ItemsFor(carName, search, fetchPage)
    case Err(f) => (db, Failed(f))
    case Ok(items) =>
      var (d, stop) := AddItems(db, car, items);
      (d, if stop.None? then Scraped else Stopped(stop.value))
  }

  // ---------------------------------------------------------------- the command

  /**
   * The slice `[100:150]` of the listing, clamped to its length. The listing
   * query has no ordering; this model passes the table in id order.
   */
  function Window<T>(cars: seq<T>): (r: seq<T>)
    ensures |r| == if |cars| <= 100 then 0 else if |cars| >= 150 then 50 else |cars| - 100
    ensures forall i :: 0 <= i < |r| ==> r[i] == cars[100 + i]
  {
    if |cars| <= 100 then [] else cars[100..if |cars| >= 150 then 150 else |cars|]
  }

  /** A car of the window is a row of the listing at a position from 100 to 149. */
  lemma WindowPositions<T>(cars: seq<T>, c: T)
    requires c in Window(cars)
    ensures exists k :: 100 <= k < 150 && k < |cars| && cars[k] == c
  {
    var i :| 0 <= i < |Window(cars)| && Window(cars)[i] == c;
    assert cars[100 + i] == c;
  }

  /** Every car of the list is a model-year row. */
  ghost predicate Listed(db: Db, cars: seq<ModelYear>) {
    forall c :: c in cars ==> c in db.modelYears
  }

  lemma WindowListed(db: Db)
    ensures Listed(db, Window(db.modelYears))
  {
    var w := Window(db.modelYears);
    forall c | c in w ensures c in db.modelYears {
      var i :| 0 <= i < |w| && w[i] == c;
      assert db.modelYears[100 + i] == c;
    }
  }

  /** One more car: its work is appended to the outcomes, whatever happened to the cars before it. */
  function CarStep(prev: (Db, seq<Outcome>), car: ModelYear, fullName: ModelYear -> string, search: string -> Option<seq<Link>>, fetchPage: string -> Option<ConfigPage>): (r: (Db, seq<Outcome>))
    requires WellFormed(prev.0) && car in prev.0.modelYears
    ensures WellFormed(r.0) && OnlyItemsAdded(prev.0, r.0)
  {
    assert ModelYearId(car) in Ids(prev.0.modelYears, ModelYearId);
    var (d, outcome) := ScrapeVariation(prev.0, fullName(car), car.id, search, fetchPage);
    (d, prev.1 + [outcome])
  }

  /** The cars in order, each with its own outcome; no car's failure stops the others. */
  function VariationsPass(db: Db, cars: seq<ModelYear>, fullName: ModelYear -> string, search: string -> Option<seq<Link>>, fetchPage: string -> Option<ConfigPage>): (r: (Db, seq<Outcome>))
    requires WellFormed(db) && Listed(db, cars)
    ensures WellFormed(r.0) && OnlyItemsAdded(db, r.0) && |r.1| == |cars|
    decreases |cars|
  {
    if cars == [] then (db, [])
    else
      var prev := VariationsPass(db, cars[..|cars| - 1], fullName, search, fetchPage);
      var r := CarStep(prev, cars[|cars| - 1], fullName, search, fetchPage);
      OnlyItemsAddedTrans(db, prev.0, r.0);
      r
  }

  lemma VariationsPassSnoc(db: Db, cars: seq<ModelYear>, k: nat, fullName: ModelYear -> string, search: string -> Option<seq<Link>>, fetchPage: string -> Option<ConfigPage>)
    requires WellFormed(db) && Listed(db, cars) && k < |cars|
    ensures Listed(db, cars[..k]) && Listed(db, cars[..k + 1])
    ensures var prev := VariationsPass(db, cars[..k], fullName, search, fetchPage);
            VariationsPass(db, cars[..k + 1], fullName, search, fetchPage) == CarStep(prev, cars[k], fullName, search, fetchPage)
  {
    assert cars[..k + 1][..k] == cars[..k];
  }

  /**
   * `scrape_variations`: the window of the model-year listing, as it stood
   * when the command started.
   */
  function ScrapeVariations(db: Db, fullName: ModelYear -> string, search: string -> Option<seq<Link>>, fetchPage: string -> Option<ConfigPage>): (r: (Db, seq<Outcome>))
    requires WellFormed(db)
    ensures WellFormed(r.0) && OnlyItemsAdded(db, r.0) && |r.1| == |Window(db.modelYears)|
  {
    VariationsPass(db, Window(db.modelYears), fullName, search, fetchPage)
  }

  /** The parents under which the variations of the cars are filed. */
  function ParentsOf(cars: seq<ModelYear>): (r: set<Parent>)
    ensures forall c :: c in cars ==> OfModelYear(c.id) in r
    ensures forall p :: p in r ==> exists c :: c in cars && p == OfModelYear(c.id)
  {
    set c | c in cars :: OfModelYear(c.id)
  }

  /** Every variation row a pass creates hangs under one of the pass's cars. */
  lemma {:induction false} PassParents(db: Db, cars: seq<ModelYear>, fullName: ModelYear -> string, search: string -> Option<seq<Link>>, fetchPage: string -> Option<ConfigPage>)
    requires WellFormed(db) && Listed(db, cars)
    ensures NewUnder(db.variations, VariationsPass(db, cars, fullName, search, fetchPage).0.variations, ParentsOf(cars))
    decreases |cars|
  {
    if cars != [] {
      var init := cars[..|cars| - 1];
      var car := cars[|cars| - 1];
      var prev := VariationsPass(db, init, fullName, search, fetchPage);
      PassParents(db, init, fullName, search, fetchPage);
      var d := VariationsPass(db, cars, fullName, search, fetchPage).0;
      assert ModelYearId(car) in Ids(prev.0.modelYears, ModelYearId);
      var step := ScrapeVariation(prev.0, fullName(car), car.id, search, fetchPage);
      assert d == step.0;
      var items := ItemsFor(fullName(car), search, fetchPage);
      if items.Ok? {
        AddItemsParents(prev.0, car.id, items.value);
      }
      assert NewUnder(prev.0.variations, d.variations, {OfModelYear(car.id)});
      assert ParentsOf(init) <= ParentsOf(cars);
      NewUnderTrans(db.variations, prev.0.variations, d.variations, ParentsOf(init), {OfModelYear(car.id)}, ParentsOf(cars));
    }
  }

  /** The command creates variation rows only under model-years at positions 100 to 149 of the listing. */
  lemma ScrapeVariationsWindow(db: Db, fullName: ModelYear -> string, search: string -> Option<seq<Link>>, fetchPage: string -> Option<ConfigPage>)
    requires WellFormed(db)
    ensures var d := ScrapeVariations(db, fullName, search, fetchPage).0;
            forall k :: |db.variations| <= k < |d.variations| ==>
              exists i :: 100 <= i < 150 && i < |db.modelYears| && d.variations[k].parent == OfModelYear(db.modelYears[i].id)
  {
    var cars := Window(db.modelYears);
    PassParents(db, cars, fullName, search, fetchPage);
    var d := ScrapeVariations(db, fullName, search, fetchPage).0;
    assert d == VariationsPass(db, cars, fullName, search, fetchPage).0;
    forall k | |db.variations| <= k < |d.variations|
      ensures exists i :: 100 <= i < 150 && i < |db.modelYears| && d.variations[k].parent == OfModelYear(db.modelYears[i].id)
    {
      assert d.variations[k].parent in ParentsOf(cars);
      var c :| c in cars && d.variations[k].parent == OfModelYear(c.id);
      WindowPositions(db.modelYears, c);
    }
  }

  // ---------------------------------------------------------------- the command on the store

  /** One carousel item on the store. */
  method AddItemAt(db: Database.Store, car: int, text: string) returns (stop: Option<Stop>)
    requires db.Valid() && car in Ids(db.modelYears, ModelYearId)
    modifies db
    ensures db.Valid()
    ensures (db.State(), stop) == AddItem(old(db.State()), car, text)
  {
    var item := ParseItem(text);
    if item.None? {
      return Some(Malformed);
    }
    var got := db.GetOrCreateVariation(OfModelYear(car), item.value.name);
    if got.Err? {
      return Some(Raised(got.error));
    }
    var v := got.value.row;
    assert v.id in Ids(db.variations, VariationId) by {
      assert v in db.variations;
    }
    var price := db.CreatePrice(v.id, item.value.price, DefaultCurrency);
    if price.Err? {
      return Some(Raised(price.error));
    }
    stop := None;
  }

  /** The item loop of one car on the store. */
  method StoreItems(db: Database.Store, car: int, texts: seq<string>) returns (stop: Option<Stop>)
    requires db.Valid() && car in Ids(db.modelYears, ModelYearId)
    modifies db
    ensures db.Valid()
    ensures (db.State(), stop) == AddItems(old(db.State()), car, texts)
  {
    var k := 0;
    assert texts[k..] == texts;
    while k < |texts|
      invariant 0 <= k <= |texts| && db.Valid() && car in Ids(db.modelYears, ModelYearId)
      invariant AddItems(old(db.State()), car, texts) == AddItems(db.State(), car, texts[k..])
      decreases |texts| - k
    {
      ghost var before := db.State();
      stop := AddItemAt(db, car, texts[k]);
      AddItemsFirst(before, car, texts[k..], db.State(), stop);
      assert texts[k..][1..] == texts[k + 1..];
      if stop.Some? {
        return;
      }
      k := k + 1;
    }
    stop := None;
  }

  /** `scrape_variation_google` on the store. */
  method ScrapeVariationGoogle(db: Database.Store, carName: string, car: int, search: string -> Option<seq<Link>>, fetchPage: string -> Option<ConfigPage>) returns (outcome: Outcome)
    requires db.Valid() && car in Ids(db.modelYears, ModelYearId)
    modifies db
    ensures db.Valid()
    ensures (db.State(), outcome) == ScrapeVariation(old(db.State()), carName, car, search, fetchPage)
  {
    var items := ItemsFor(carName, search, fetchPage);
    if items.Err? {
      return Failed(items.error);
    }
    var stop := StoreItems(db, car, items.value);
    outcome := if stop.None? then Scraped else Stopped(stop.value);
  }

  /** The work for one car of the window, as one step of the pass. */
  method ScrapeCar(db: Database.Store, car: ModelYear, fullName: ModelYear -> string, search: string -> Option<seq<Link>>, fetchPage: string -> Option<ConfigPage>, ghost earlier: seq<Outcome>) returns (outcome: Outcome)
    requires db.Valid() && car in db.modelYears
    modifies db
    ensures db.Valid() && db.modelYears == old(db.modelYears)
    ensures (db.State(), earlier + [outcome]) == CarStep((old(db.State()), earlier), car, fullName, search, fetchPage)
  {
    assert ModelYearId(car) in Ids(db.modelYears, ModelYearId);
    outcome := ScrapeVariationGoogle(db, fullName(car), car.id, search, fetchPage);
  }

  /** `scrape_variations` on the store: the window is taken before the first car is scraped. */
  method ScrapeVariationsOnStore(db: Database.Store, fullName: ModelYear -> string, search: string -> Option<seq<Link>>, fetchPage: string -> Option<ConfigPage>) returns (outcomes: seq<Outcome>)
    requires db.Valid()
    modifies db
    ensures db.Valid()
    ensures (db.State(), outcomes) == ScrapeVariations(old(db.State()), fullName, search, fetchPage)
  {
    ghost var start := db.State();
    var cars := Window(db.modelYears);
    WindowListed(start);
    outcomes := [];
    assert cars[..0] == [];
    for k := 0 to |cars|
      invariant db.Valid() && db.modelYears == start.modelYears
      invariant (db.State(), outcomes) == VariationsPass(start, cars[..k], fullName, search, fetchPage)
    {
      VariationsPassSnoc(start, cars, k, fullName, search, fetchPage);
      assert cars[k] in cars;
      var outcome := ScrapeCar(db, cars[k], fullName, search, fetchPage, outcomes);
      outcomes := outcomes + [outcome];
    }
    assert cars[..|cars|] == cars;
  }
}
