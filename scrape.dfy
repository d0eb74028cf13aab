/**
 * The FuelEconomy.gov command that fills the catalog from the menus alone:
 * each make of the year becomes a Manufacturer and each menu value of a make
 * is split into a model name and a variation name, by a list of known
 * multi-word model names first and at the first space otherwise.
 */
module Scrape {
  import opened Wrappers
  import opened Text
  import opened Query
  import opened CarModels
  import Catalog
  import Ingest
  import opened Database
  import opened Web
  import FuelEconomy

  const KnownExceptions: seq<string> := ["Model 3", "Model S", "Model X", "Model Y"]

  const FirstYear := 2023

  /** Position of the first name in `exceptions` the text starts with. */
  function FirstPrefix(full: string, exceptions: seq<string>): (r: Option<nat>)
    ensures r.Some? ==> r.value < |exceptions| && StartsWith(full, exceptions[r.value])
    ensures r.Some? ==> forall j :: 0 <= j < r.value ==> !StartsWith(full, exceptions[j])
    ensures r.None? ==> forall j :: 0 <= j < |exceptions| ==> !StartsWith(full, exceptions[j])
  {
    if exceptions == [] then None
    else if StartsWith(full, exceptions[0]) then Some(0)
    else
      var rest := FirstPrefix(full, exceptions[1..]);
      if rest.Some? then Some(rest.value + 1) else None
  }

  /**
   * `parse_model_name`: (model name, variation name). The model name is
   * always a leading part of the text.
   */
  function ParseModelName(full: string, exceptions: seq<string>): (r: (string, string))
    ensures StartsWith(full, r.0)
  {
    var first := FirstPrefix(full, exceptions);
    if first.Some? then
      var exception := exceptions[first.value];
      var variation := Strip(full[|exception|..]);
      (exception, if variation != [] then variation else "Standard")
    else
      var parts := SplitOnce(full, ' ');
      (parts[0], if |parts| > 1 then parts[1] else "Standard")
  }

  /**
   * A known name the text starts with, the first in list order, is the model;
   * the rest of the text, stripped, is the variation, "Standard" when nothing is left.
   */
  lemma ExceptionWins(full: string, exceptions: seq<string>, i: nat)
    requires i < |exceptions| && StartsWith(full, exceptions[i])
    requires forall j :: 0 <= j < i ==> !StartsWith(full, exceptions[j])
    ensures var rest := Strip(full[|exceptions[i]|..]);
            ParseModelName(full, exceptions) == (exceptions[i], if rest == [] then "Standard" else rest)
    ensures ParseModelName(full, exceptions).1 != []
  {
  }

  /**
   * Without a known name, the model is the text before the first space and has
   * no space; with a space the two parts spell the text again, without one the
   * variation is "Standard".
   */
  lemma FallbackSplit(full: string, exceptions: seq<string>)
    requires forall j :: 0 <= j < |exceptions| ==> !StartsWith(full, exceptions[j])
    ensures var (model, variation) := ParseModelName(full, exceptions);
            && ' ' !in model
            && (' ' in full ==> model + " " + variation == full)
            && (' ' !in full ==> model == full && variation == "Standard")
  {
  }

  /** List order decides: "Model Sport" is read as the model "Model S" with the variation "port". */
  lemma ModelSportExample()
    ensures ParseModelName("Model Sport", KnownExceptions) == ("Model S", "port")
  {
    var full := "Model Sport";
    assert full[6] == 'S' && KnownExceptions[0][6] == '3';
    assert !StartsWith(full, KnownExceptions[0]);
    assert StartsWith(full, KnownExceptions[1]);
    ExceptionWins(full, KnownExceptions, 1);
    assert full[7..] == "port";
    StripNoSpace("port");
  }

  /** A fallback text ending in one space gives an empty variation name. */
  lemma TrailingSpaceExample()
    ensures ParseModelName("Civic ", KnownExceptions) == ("Civic", "")
  {
    var full := "Civic ";
    forall j | 0 <= j < |KnownExceptions| ensures !StartsWith(full, KnownExceptions[j]) {
      assert full[0] != KnownExceptions[j][0];
    }
    assert FirstPrefix(full, KnownExceptions) == None;
    assert full == "Civic" + [' '] + "";
    SplitOnceAt("Civic", "", ' ');
  }

  /** The Model of the parsed model name has one row, and the parsed Variation of that row has one row. */
  ghost predicate Filed(db: Catalog.Db, maker: int, text: string, year: int) {
    var (model, variation) := ParseModelName(text, KnownExceptions);
    var h := Hits(db.models, KeyOfModel, ModelKey(maker, model, year));
    |h| == 1 && |Hits(db.variations, KeyOfVariation, VariationKey(OfModel(db.models[h[0]].id), variation))| == 1
  }

  /** One menu value: `get_or_create` of the Model, then of its Variation. */
  function AddCar(db: Catalog.Db, maker: int, text: string, year: int): (r: (Catalog.Db, Option<StoreError>))
    requires Catalog.WellFormed(db) && maker in Ids(db.manufacturers, ManufacturerId)
    ensures Catalog.WellFormed(r.0)
    ensures r.0 == db.(models := r.0.models, variations := r.0.variations, nextId := r.0.nextId)
    ensures |db.models| <= |r.0.models| <= |db.models| + 1 && |db.variations| <= |r.0.variations| <= |db.variations| + 1
    ensures r.1.None? ==> Filed(r.0, maker, text, year)
  {
    var (model, variation) := ParseModelName(text, KnownExceptions);
    Catalog.GetOrCreateModelWellFormed(db, maker, model, year);
    var (d1, got) := Catalog.GetOrCreateModel(db, maker, model, year);
    if got.Err? then (d1, Some(got.error))
    else
      var row := got.value.row;
      assert row.id in Ids(d1.models, ModelId);
      SingleHitRow(d1.models, KeyOfModel, ModelKey(maker, model, year), row);
      var (d2, v) := Catalog.GetOrCreateVariation(d1, OfModel(row.id), variation);
      (d2, if v.Err? then Some(v.error) else None)
  }

  /** A value already filed stays filed when another value is filed. */
  lemma AddCarKeepsFiled(db: Catalog.Db, maker: int, text: string, year: int, maker2: int, text2: string, year2: int)
    requires Catalog.WellFormed(db) && maker in Ids(db.manufacturers, ManufacturerId)
    requires Filed(db, maker2, text2, year2) && AddCar(db, maker, text, year).1.None?
    ensures Filed(AddCar(db, maker, text, year).0, maker2, text2, year2)
  {
    var (model, variation) := ParseModelName(text, KnownExceptions);
    var (model2, variation2) := ParseModelName(text2, KnownExceptions);
    var k2 := ModelKey(maker2, model2, year2);
    var h := Hits(db.models, KeyOfModel, k2);
    var (d1, got) := Catalog.GetOrCreateModel(db, maker, model, year);
    GetOrCreateKeepsSingle(db.models, KeyOfModel, ModelKey(maker, model, year), Model(db.nextId, maker, model, year, None), k2);
    var h1 := Hits(d1.models, KeyOfModel, k2);
    assert d1.models[h1[0]] == db.models[h[0]];
    var row := got.value.row;
    var vk2 := VariationKey(OfModel(db.models[h[0]].id), variation2);
    GetOrCreateKeepsSingle(d1.variations, KeyOfVariation, VariationKey(OfModel(row.id), variation),
      Variation(d1.nextId, OfModel(row.id), variation, DefaultFuel), vk2);
  }

  /** Filing a value that is already filed changes nothing. */
  lemma FiledAddCarNoChange(db: Catalog.Db, maker: int, text: string, year: int)
    requires Catalog.WellFormed(db) && maker in Ids(db.manufacturers, ManufacturerId)
    requires Filed(db, maker, text, year)
    ensures AddCar(db, maker, text, year) == (db, None)
  {
    var (model, variation) := ParseModelName(text, KnownExceptions);
    var (d1, got) := Catalog.GetOrCreateModel(db, maker, model, year);
    assert d1 == db;
    var h := Hits(db.models, KeyOfModel, ModelKey(maker, model, year));
    assert got.value.row == db.models[h[0]];
    var (d2, v) := Catalog.GetOrCreateVariation(d1, OfModel(got.value.row.id), variation);
    assert d2 == db;
  }

  /** The values of one make's menu in order, stopping at the first exception. */
  function AddCars(db: Catalog.Db, maker: int, texts: seq<string>, year: int): (r: (Catalog.Db, Option<StoreError>))
    requires Catalog.WellFormed(db) && maker in Ids(db.manufacturers, ManufacturerId)
    ensures Catalog.WellFormed(r.0)
    ensures r.0 == db.(models := r.0.models, variations := r.0.variations, nextId := r.0.nextId)
    ensures |db.models| <= |r.0.models| <= |db.models| + |texts|
    decreases |texts|
  {
    if texts == [] then (db, None)
    else
      var (d, e) := AddCar(db, maker, texts[0], year);
      if e.Some? then (d, e) else AddCars(d, maker, texts[1..], year)
  }

  lemma {:induction false} AddCarsKeepsFiled(db: Catalog.Db, maker: int, texts: seq<string>, year: int, maker2: int, text2: string, year2: int)
    requires Catalog.WellFormed(db) && maker in Ids(db.manufacturers, ManufacturerId)
    requires Filed(db, maker2, text2, year2) && AddCars(db, maker, texts, year).1.None?
    ensures Filed(AddCars(db, maker, texts, year).0, maker2, text2, year2)
    decreases |texts|
  {
    if texts != [] {
      AddCarKeepsFiled(db, maker, texts[0], year, maker2, text2, year2);
      AddCarsKeepsFiled(AddCar(db, maker, texts[0], year).0, maker, texts[1..], year, maker2, text2, year2);
    }
  }

  /** After a pass that raised nothing, every value of the menu is filed. */
  lemma {:induction false} AddCarsFilesAll(db: Catalog.Db, maker: int, texts: seq<string>, year: int)
    requires Catalog.WellFormed(db) && maker in Ids(db.manufacturers, ManufacturerId)
    requires AddCars(db, maker, texts, year).1.None?
    ensures forall t :: t in texts ==> Filed(AddCars(db, maker, texts, year).0, maker, t, year)
    decreases |texts|
  {
    if texts != [] {
      var d := AddCar(db, maker, texts[0], year).0;
      AddCarsFilesAll(d, maker, texts[1..], year);
      AddCarsKeepsFiled(d, maker, texts[1..], year, maker, texts[0], year);
      assert forall t :: t in texts ==> t == texts[0] || t in texts[1..];
    }
  }

  lemma {:induction false} AllFiledNoChange(db: Catalog.Db, maker: int, texts: seq<string>, year: int)
    requires Catalog.WellFormed(db) && maker in Ids(db.manufacturers, ManufacturerId)
    requires forall t :: t in texts ==> Filed(db, maker, t, year)
    ensures AddCars(db, maker, texts, year) == (db, None)
    decreases |texts|
  {
    if texts != [] {
      assert texts[0] in texts;
      FiledAddCarNoChange(db, maker, texts[0], year);
      AllFiledNoChange(db, maker, texts[1..], year);
    }
  }

  /** Rerunning the pass over the same menu adds no Model and no Variation. */
  lemma AddCarsRerun(db: Catalog.Db, maker: int, texts: seq<string>, year: int)
    requires Catalog.WellFormed(db) && maker in Ids(db.manufacturers, ManufacturerId)
    requires AddCars(db, maker, texts, year).1.None?
    ensures var d := AddCars(db, maker, texts, year).0;
            AddCars(d, maker, texts, year) == (d, None)
  {
    AddCarsFilesAll(db, maker, texts, year);
    AllFiledNoChange(AddCars(db, maker, texts, year).0, maker, texts, year);
  }

  /** `scrape_cars`: fetch the make's menu, look the Manufacturer up by name and file every value. */
  function CarsForMake(db: Catalog.Db, year: int, make: string, fetch: string -> Menu): (r: (Catalog.Db, Outcome))
    requires Catalog.WellFormed(db)
    ensures Catalog.WellFormed(r.0)
    ensures r.0 == db.(models := r.0.models, variations := r.0.variations, nextId := r.0.nextId)
    ensures (r.1 == FetchFailed) <==> fetch(ModelsUrl(year, make)).status != StatusOk
    ensures r.1 == FetchFailed ==> r.0 == db
    ensures fetch(ModelsUrl(year, make)).status == StatusOk && Catalog.GetManufacturer(db, make).Err? ==>
              r == (db, Raised(Catalog.GetManufacturer(db, make).error))
  {
    var menu := fetch(ModelsUrl(year, make));
    if menu.status != StatusOk then (db, FetchFailed)
    else
      var maker := Catalog.GetManufacturer(db, make);
      if maker.Err? then (db, Raised(maker.error))
      else
        assert maker.value.id in Ids(db.manufacturers, ManufacturerId);
        var (d, e) := AddCars(db, maker.value.id, menu.items, year);
        (d, if e.Some? then Raised(e.value) else Done)
  }

  /** Running `scrape_cars` again for the same make and year adds no rows. */
  lemma CarsForMakeRerun(db: Catalog.Db, year: int, make: string, fetch: string -> Menu)
    requires Catalog.WellFormed(db) && CarsForMake(db, year, make, fetch).1 == Done
    ensures var d := CarsForMake(db, year, make, fetch).0;
            CarsForMake(d, year, make, fetch) == (d, Done)
  {
    var maker := Catalog.GetManufacturer(db, make);
    assert maker.value.id in Ids(db.manufacturers, ManufacturerId);
    AddCarsRerun(db, maker.value.id, fetch(ModelsUrl(year, make)).items, year);
  }

  method FileCar(db: Store, maker: int, text: string, year: int) returns (e: Option<StoreError>)
    requires db.Valid() && maker in Ids(db.manufacturers, ManufacturerId)
    modifies db
    ensures db.Valid()
    ensures (db.State(), e) == AddCar(old(db.State()), maker, text, year)
  {
    var (model, variation) := ParseModelName(text, KnownExceptions);
    var got := db.GetOrCreateModel(maker, model, year);
    if got.Err? {
      return Some(got.error);
    }
    assert got.value.row.id in Ids(db.models, ModelId);
    var v := db.GetOrCreateVariation(OfModel(got.value.row.id), variation);
    e := if v.Err? then Some(v.error) else None;
  }

  method ScrapeCars(db: Store, year: int, make: string, fetch: string -> Menu) returns (outcome: Outcome)
    requires db.Valid()
    modifies db
    ensures db.Valid()
    ensures (db.State(), outcome) == CarsForMake(old(db.State()), year, make, fetch)
  {
    var menu := fetch(ModelsUrl(year, make));
    if menu.status != StatusOk {
      return FetchFailed;
    }
    var maker := db.GetManufacturer(make);
    if maker.Err? {
      return Raised(maker.error);
    }
    assert maker.value.id in Ids(db.manufacturers, ManufacturerId);
    var e := FileCars(db, maker.value.id, menu.items, year);
    outcome := if e.Some? then Raised(e.value) else Done;
  }

  /** The item loop of `scrape_cars`. */
  method FileCars(db: Store, maker: int, texts: seq<string>, year: int) returns (e: Option<StoreError>)
    requires db.Valid() && maker in Ids(db.manufacturers, ManufacturerId)
    modifies db
    ensures db.Valid()
    ensures (db.State(), e) == AddCars(old(db.State()), maker, texts, year)
  {
    var k := 0;
    assert texts[k..] == texts;
    while k < |texts|
      invariant 0 <= k <= |texts| && db.Valid()
      invariant db.manufacturers == old(db.manufacturers)
      invariant AddCars(old(db.State()), maker, texts, year) == AddCars(db.State(), maker, texts[k..], year)
      decreases |texts| - k
    {
      assert texts[k..][1..] == texts[k + 1..];
      e := FileCar(db, maker, texts[k], year);
      if e.Some? {
        return;
      }
      k := k + 1;
    }
    assert texts[k..] == [];
    e := None;
  }

  /** `scrape_manufacturers`: the manufacturer pass, returning the menu values in response order, `[]` on a failed fetch. */
  function MakesForYear(db: Catalog.Db, year: int, fetch: string -> Menu): (r: (Catalog.Db, seq<string>, Outcome))
    requires Catalog.WellFormed(db)
    ensures Catalog.WellFormed(r.0) && Ingest.OnlyManufacturers(db, r.0)
    ensures r.2 == Done ==> r.1 == fetch(MakesUrl(year)).items
    ensures r.2 == FetchFailed ==> r.0 == db && r.1 == []
    ensures r.2 == FetchFailed <==> fetch(MakesUrl(year)).status != StatusOk
  {
    var (d, created, outcome) := FuelEconomy.ManufacturersForYear(db, year, fetch);
    (d, if outcome == Done then fetch(MakesUrl(year)).items else [], outcome)
  }

  method ScrapeManufacturers(db: Store, year: int, fetch: string -> Menu) returns (names: seq<string>, outcome: Outcome)
    requires db.Valid()
    modifies db
    ensures db.Valid()
    ensures (db.State(), names, outcome) == MakesForYear(old(db.State()), year, fetch)
  {
    var created;
    created, outcome := FuelEconomy.ScrapeManufacturers(db, year, fetch);
    names := if outcome == Done then fetch(MakesUrl(year)).items else [];
  }

  /** The makes of one year in order; an exception ends the command. */
  function CarsForMakes(db: Catalog.Db, makes: seq<string>, year: int, fetch: string -> Menu): (r: (Catalog.Db, Option<StoreError>))
    requires Catalog.WellFormed(db)
    ensures Catalog.WellFormed(r.0)
    decreases |makes|
  {
    if makes == [] then (db, None)
    else
      var (d, outcome) := CarsForMake(db, year, makes[0], fetch);
      if outcome.Raised? then (d, Some(outcome.error)) else CarsForMakes(d, makes[1..], year, fetch)
  }

  /** One year of `handle`: the manufacturer pass, then `scrape_cars` for each returned make. */
  function RunYear(db: Catalog.Db, year: int, fetch: string -> Menu): (r: (Catalog.Db, Option<StoreError>))
    requires Catalog.WellFormed(db)
    ensures Catalog.WellFormed(r.0)
    ensures fetch(MakesUrl(year)).status != StatusOk ==> r == (db, None)
  {
    var (d, makes, outcome) := MakesForYear(db, year, fetch);
    if outcome.Raised? then (d, Some(outcome.error)) else CarsForMakes(d, makes, year, fetch)
  }

  function RunYears(db: Catalog.Db, years: seq<int>, fetch: string -> Menu): (r: (Catalog.Db, Option<StoreError>))
    requires Catalog.WellFormed(db)
    ensures Catalog.WellFormed(r.0)
    decreases |years|
  {
    if years == [] then (db, None)
    else
      var (d, e) := RunYear(db, years[0], fetch);
      if e.Some? then (d, e) else RunYears(d, years[1..], fetch)
  }

  method ScrapeYear(db: Store, year: int, fetch: string -> Menu) returns (error: Option<StoreError>)
    requires db.Valid()
    modifies db
    ensures db.Valid()
    ensures (db.State(), error) == RunYear(old(db.State()), year, fetch)
  {
    var makes, outcome := ScrapeManufacturers(db, year, fetch);
    if outcome.Raised? {
      return Some(outcome.error);
    }
    var k := 0;
    assert makes[k..] == makes;
    while k < |makes|
      invariant 0 <= k <= |makes| && db.Valid()
      invariant RunYear(old(db.State()), year, fetch) == CarsForMakes(db.State(), makes[k..], year, fetch)
      decreases |makes| - k
    {
      assert makes[k..][1..] == makes[k + 1..];
      var o := ScrapeCars(db, year, makes[k], fetch);
      if o.Raised? {
        return Some(o.error);
      }
      k := k + 1;
    }
    assert makes[k..] == [];
    error := None;
  }

  /** `handle`: every year from 2023 up to and including the current year, ascending. */
  method Handle(db: Store, currentYear: int, fetch: string -> Menu) returns (error: Option<StoreError>)
    requires db.Valid()
    modifies db
    ensures db.Valid()
    ensures (db.State(), error) == RunYears(old(db.State()), Years(FirstYear, currentYear), fetch)
  {
    var years := Years(FirstYear, currentYear);
    var k := 0;
    assert years[k..] == years;
    while k < |years|
      invariant 0 <= k <= |years| && db.Valid()
      invariant RunYears(old(db.State()), years, fetch) == RunYears(db.State(), years[k..], fetch)
      decreases |years| - k
    {
      assert years[k..][1..] == years[k + 1..];
      error := ScrapeYear(db, years[k], fetch);
      if error.Some? {
        return;
      }
      k := k + 1;
    }
    assert years[k..] == [];
    error := None;
  }
}
