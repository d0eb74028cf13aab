/**
 * The FuelEconomy.gov command: the manufacturer menu pass and the
 * variation pass, which resolves each free-text model label of a
 * manufacturer's menu against the Models already in the catalog by trying its
 * longest word prefix first, and files the remaining words as a Variation.
 */
module FuelEconomy {
  import opened Wrappers
  import opened Text
  import opened Query
  import opened CarModels
  import Catalog
  import Ingest
  import opened Database
  import opened Web

  /** The candidate model name made of the first `i` words of the label. */
  function Candidate(parts: seq<string>, i: nat): string
    requires i <= |parts|
  {
    Join(parts[..i], " ")
  }

  /**
   * The filter of the resolution query: the model's name contains the
   * candidate, its year is the requested one and its manufacturer's name
   * contains the requested manufacturer, both ignoring case.
   */
  predicate Qualifies(makers: seq<Manufacturer>, m: Model, candidate: string, year: int, make: string) {
    && ContainsIgnoringCase(m.name, candidate)
    && m.year == year
    && exists mk | mk in makers :: mk.id == m.manufacturer && ContainsIgnoringCase(mk.name, make)
  }

  ghost predicate NoneQualifies(models: seq<Model>, qualifies: (Model, string) -> bool, candidate: string) {
    forall m :: m in models ==> !qualifies(m, candidate)
  }

  /** A resolved label: how many words named the model, the model, and the variation name. */
  datatype Match = Match(words: nat, model: Model, variation: string)

  /**
   * Resolution trying the candidates of `i` words down to one word: the first
   * candidate some Model qualifies for wins, with the lowest-keyed such Model.
   */
  function ResolveFrom(models: seq<Model>, qualifies: (Model, string) -> bool, parts: seq<string>, i: nat): (r: Option<Match>)
    requires Ascending(models, ModelId) && i <= |parts|
    ensures r.Some? ==> 0 < r.value.words <= i && r.value.model in models
    ensures r.Some? ==> qualifies(r.value.model, Candidate(parts, r.value.words))
    ensures r.Some? ==> forall m :: m in models && qualifies(m, Candidate(parts, r.value.words)) ==> r.value.model.id <= m.id
    ensures r.Some? ==> forall k :: r.value.words < k <= i ==> NoneQualifies(models, qualifies, Candidate(parts, k))
    ensures r.Some? ==> r.value.variation == if r.value.words == |parts| then "Base" else Join(parts[r.value.words..], " ")
    ensures r.None? ==> forall k :: 0 < k <= i ==> NoneQualifies(models, qualifies, Candidate(parts, k))
    decreases i
  {
    if i == 0 then None
    else
      var c := Candidate(parts, i);
      var q := Against(qualifies, c);
      var first := FirstWhere(models, q);
      if first.Some? then
        FirstIsLowest(models, q, ModelId);
        Some(Match(i, models[first.value], if i < |parts| then Join(parts[i..], " ") else "Base"))
      else
        NoFirstNoneQualifies(models, qualifies, c);
        ResolveFrom(models, qualifies, parts, i - 1)
  }

  /** The test of the resolution query for one candidate. */
  function Against(qualifies: (Model, string) -> bool, c: string): Model -> bool {
    (m: Model) => qualifies(m, c)
  }

  lemma NoFirstNoneQualifies(models: seq<Model>, qualifies: (Model, string) -> bool, c: string)
    requires FirstWhere(models, Against(qualifies, c)).None?
    ensures NoneQualifies(models, qualifies, c)
  {
    var q := Against(qualifies, c);
    forall m | m in models ensures !qualifies(m, c) {
      var j :| 0 <= j < |models| && models[j] == m;
      assert !q(models[j]);
    }
  }

  /** The query of the command for one manufacturer and year, as a test of a Model against a candidate. */
  function QueryFor(makers: seq<Manufacturer>, year: int, make: string): (Model, string) -> bool {
    (m: Model, c: string) => Qualifies(makers, m, c, year, make)
  }

  /** Resolution of a whole menu label, split on single spaces. */
  function Resolve(db: Catalog.Db, text: string, year: int, make: string): Option<Match>
    requires Catalog.WellFormed(db)
  {
    var parts := Split(text, ' ');
    ResolveFrom(db.models, QueryFor(db.manufacturers, year, make), parts, |parts|)
  }

  /**
   * The words of the label come back from the model part and the variation:
   * the candidate, a space and the variation spell the label, unless the whole
   * label named the model and the variation is "Base".
   */
  lemma ResolvedLabelSplits(db: Catalog.Db, text: string, year: int, make: string)
    requires Catalog.WellFormed(db) && Resolve(db, text, year, make).Some?
    ensures var r := Resolve(db, text, year, make).value;
            var parts := Split(text, ' ');
            if r.words == |parts| then Candidate(parts, r.words) == text && r.variation == "Base"
            else Candidate(parts, r.words) + " " + r.variation == text
  {
    var r := Resolve(db, text, year, make).value;
    var parts := Split(text, ' ');
    JoinSplit(text, ' ');
    if r.words < |parts| {
      JoinSplitAt(parts, r.words, " ");
    } else {
      assert parts[..r.words] == parts;
    }
  }

  /** One round of the resolution: the candidate of `i` words wins, or the shorter ones are tried. */
  lemma ResolveFromStep(models: seq<Model>, qualifies: (Model, string) -> bool, parts: seq<string>, i: nat)
    requires Ascending(models, ModelId) && 0 < i <= |parts|
    ensures var first := FirstWhere(models, Against(qualifies, Candidate(parts, i)));
            ResolveFrom(models, qualifies, parts, i)
            == if first.Some? then Some(Match(i, models[first.value], if i < |parts| then Join(parts[i..], " ") else "Base"))
               else ResolveFrom(models, qualifies, parts, i - 1)
  {
  }

  /** The resolution loop: candidates from the longest down, stopping at the first that matches. */
  method ResolveLoop(models: seq<Model>, qualifies: (Model, string) -> bool, parts: seq<string>) returns (r: Option<Match>)
    requires Ascending(models, ModelId)
    ensures r == ResolveFrom(models, qualifies, parts, |parts|)
  {
    var i := |parts|;
    r := None;
    while i > 0
      invariant 0 <= i <= |parts| && r == None
      invariant ResolveFrom(models, qualifies, parts, |parts|) == ResolveFrom(models, qualifies, parts, i)
      decreases i
    {
      ResolveFromStep(models, qualifies, parts, i);
      var c := Candidate(parts, i);
      var first := FirstWhere(models, Against(qualifies, c));
      if first.Some? {
        var variation := if i < |parts| then Join(parts[i..], " ") else "Base";
        r := Some(Match(i, models[first.value], variation));
        break;
      }
      i := i - 1;
    }
  }

  /** The resolution of one menu label against the models in the database. */
  method ResolveLabel(db: Store, text: string, year: int, make: string) returns (r: Option<Match>)
    requires db.Valid()
    ensures r == Resolve(db.State(), text, year, make)
  {
    r := ResolveLoop(db.models, QueryFor(db.manufacturers, year, make), Split(text, ' '));
  }

  /**
   * One menu item: when the label resolves, `get_or_create` of the Variation
   * named by the leftover words on the resolved Model; otherwise nothing.
   * The second component is the exception the ORM raised, if any.
   */
  function AddLabel(db: Catalog.Db, text: string, year: int, make: string): (r: (Catalog.Db, Option<StoreError>))
    requires Catalog.WellFormed(db)
    ensures Catalog.WellFormed(r.0)
    ensures r.0 == db.(variations := r.0.variations, nextId := r.0.nextId)
    ensures Resolve(db, text, year, make).None? ==> r == (db, None)
    ensures Resolve(db, text, year, make).Some? ==>
              var x := Resolve(db, text, year, make).value;
              var key := VariationKey(OfModel(x.model.id), x.variation);
              && (r.1.None? <==> |Hits(db.variations, KeyOfVariation, key)| <= 1)
              && (r.1.None? ==> |Hits(r.0.variations, KeyOfVariation, key)| == 1)
              && (r.0.variations == db.variations
                  || r.0.variations == db.variations + [Variation(db.nextId, OfModel(x.model.id), x.variation, DefaultFuel)])
  {
    var found := Resolve(db, text, year, make);
    if found.None? then (db, None)
    else
      var x := found.value;
      assert x.model.id in Ids(db.models, ModelId);
      var (d, res) := Catalog.GetOrCreateVariation(db, OfModel(x.model.id), x.variation);
      (d, if res.Err? then Some(res.error) else None)
  }

  /** The body of the item loop: resolve, then file the variation on the resolved Model. */
  method FileLabel(db: Store, text: string, year: int, make: string) returns (e: Option<StoreError>)
    requires db.Valid()
    modifies db
    ensures db.Valid()
    ensures (db.State(), e) == AddLabel(old(db.State()), text, year, make)
  {
    var found := ResolveLabel(db, text, year, make);
    e := None;
    if found.Some? {
      assert found.value.model.id in Ids(db.models, ModelId);
      var got := db.GetOrCreateVariation(OfModel(found.value.model.id), found.value.variation);
      if got.Err? {
        e := Some(got.error);
      }
    }
  }

  /** Filing the same label twice adds nothing the first filing did not. */
  lemma AddLabelIdempotent(db: Catalog.Db, text: string, year: int, make: string)
    requires Catalog.WellFormed(db) && AddLabel(db, text, year, make).1.None?
    ensures var d := AddLabel(db, text, year, make).0;
            AddLabel(d, text, year, make) == (d, None)
  {
    var d := AddLabel(db, text, year, make).0;
    assert Resolve(d, text, year, make) == Resolve(db, text, year, make);
    var found := Resolve(db, text, year, make);
    if found.Some? {
      var x := found.value;
      var key := VariationKey(OfModel(x.model.id), x.variation);
      GetOrCreateIdempotent(db.variations, KeyOfVariation, key,
        Variation(db.nextId, OfModel(x.model.id), x.variation, DefaultFuel),
        Variation(d.nextId, OfModel(x.model.id), x.variation, DefaultFuel));
    }
  }

  /** The items of one menu in order, stopping at the first exception. */
  function AddLabels(db: Catalog.Db, texts: seq<string>, year: int, make: string): (r: (Catalog.Db, Option<StoreError>))
    requires Catalog.WellFormed(db)
    ensures Catalog.WellFormed(r.0)
    ensures r.0 == db.(variations := r.0.variations, nextId := r.0.nextId)
    ensures |db.variations| <= |r.0.variations| <= |db.variations| + |texts|
    decreases |texts|
  {
    if texts == [] then (db, None)
    else
      var (d, e) := AddLabel(db, texts[0], year, make);
      if e.Some? then (d, e) else AddLabels(d, texts[1..], year, make)
  }

  /** `scrape_variations_manufacturer`: fetch the manufacturer's menu and file every label. */
  function VariationsForMake(db: Catalog.Db, year: int, make: string, fetch: string -> Menu): (r: (Catalog.Db, Outcome))
    requires Catalog.WellFormed(db)
    ensures Catalog.WellFormed(r.0)
    ensures r.0.models == db.models && r.0.manufacturers == db.manufacturers
    ensures r.0 == db.(variations := r.0.variations, nextId := r.0.nextId)
    ensures (r.1 == FetchFailed) <==> fetch(ModelsUrl(year, make)).status != StatusOk
    ensures r.1 == FetchFailed ==> r.0 == db
    ensures r.1 == Done ==> |r.0.variations| <= |db.variations| + |fetch(ModelsUrl(year, make)).items|
  {
    var menu := fetch(ModelsUrl(year, make));
    if menu.status != StatusOk then (db, FetchFailed)
    else
      var (d, e) := AddLabels(db, menu.items, year, make);
      (d, if e.Some? then Raised(e.value) else Done)
  }

  method ScrapeVariationsManufacturer(db: Store, year: int, make: string, fetch: string -> Menu) returns (outcome: Outcome)
    requires db.Valid()
    modifies db
    ensures db.Valid()
    ensures (db.State(), outcome) == VariationsForMake(old(db.State()), year, make, fetch)
  {
    var menu := fetch(ModelsUrl(year, make));
    if menu.status != StatusOk {
      return FetchFailed;
    }
    var k := 0;
    while k < |menu.items|
      invariant 0 <= k <= |menu.items| && db.Valid()
      invariant AddLabels(old(db.State()), menu.items, year, make) == AddLabels(db.State(), menu.items[k..], year, make)
      decreases |menu.items| - k
    {
      assert menu.items[k..][1..] == menu.items[k + 1..];
      var e := FileLabel(db, menu.items[k], year, make);
      if e.Some? {
        return Raised(e.value);
      }
      k := k + 1;
    }
    assert menu.items[k..] == [];
    outcome := Done;
  }

  /** `scrape_variations`: every manufacturer in the catalog, all of them even after a failure; the first exception is reported. */
  function VariationsForMakes(db: Catalog.Db, makes: seq<string>, year: int, fetch: string -> Menu): (r: (Catalog.Db, Option<StoreError>))
    requires Catalog.WellFormed(db)
    ensures Catalog.WellFormed(r.0)
    ensures r.0.models == db.models && r.0.manufacturers == db.manufacturers
    ensures r.0 == db.(variations := r.0.variations, nextId := r.0.nextId)
    decreases |makes|
  {
    if makes == [] then (db, None)
    else
      var (d, outcome) := VariationsForMake(db, year, makes[0], fetch);
      var (d2, e) := VariationsForMakes(d, makes[1..], year, fetch);
      (d2, if outcome.Raised? then Some(outcome.error) else e)
  }

  /** A result whose error is replaced by an earlier one, if there was one. */
  function Carry(earlier: Option<StoreError>, r: (Catalog.Db, Option<StoreError>)): (Catalog.Db, Option<StoreError>) {
    (r.0, if earlier.Some? then earlier else r.1)
  }

  lemma VariationsForMakesFirst(db: Catalog.Db, makes: seq<string>, year: int, fetch: string -> Menu)
    requires Catalog.WellFormed(db) && makes != []
    ensures var (d, outcome) := VariationsForMake(db, year, makes[0], fetch);
            VariationsForMakes(db, makes, year, fetch)
            == Carry(if outcome.Raised? then Some(outcome.error) else None, VariationsForMakes(d, makes[1..], year, fetch))
  {
  }

  method ScrapeVariations(db: Store, year: int, fetch: string -> Menu) returns (error: Option<StoreError>)
    requires db.Valid()
    modifies db
    ensures db.Valid()
    ensures (db.State(), error) == VariationsForMakes(old(db.State()), Catalog.Names(old(db.manufacturers)), year, fetch)
  {
    var makes := Catalog.Names(db.manufacturers);
    var k := 0;
    error := None;
    assert makes[k..] == makes;
    while k < |makes|
      invariant 0 <= k <= |makes| && db.Valid()
      invariant VariationsForMakes(old(db.State()), makes, year, fetch) == Carry(error, VariationsForMakes(db.State(), makes[k..], year, fetch))
      decreases |makes| - k
    {
      ghost var before := db.State();
      var outcome := ScrapeVariationsManufacturer(db, year, makes[k], fetch);
      assert makes[k..][1..] == makes[k + 1..];
      VariationsForMakesFirst(before, makes[k..], year, fetch);
      if outcome.Raised? && error.None? {
        error := Some(outcome.error);
      }
      k := k + 1;
    }
  }

  /** `scrape_manufacturers`: the makes menu of the year, one Manufacturer `get_or_create` per value. */
  function ManufacturersForYear(db: Catalog.Db, year: int, fetch: string -> Menu): (r: (Catalog.Db, seq<bool>, Outcome))
    requires Catalog.WellFormed(db)
    ensures Catalog.WellFormed(r.0) && Ingest.OnlyManufacturers(db, r.0)
    ensures (r.2 == FetchFailed) <==> fetch(MakesUrl(year)).status != StatusOk
    ensures r.2 == FetchFailed ==> r.0 == db && r.1 == []
    ensures r.2 == Done ==> |r.1| == |fetch(MakesUrl(year)).items|
  {
    var menu := fetch(MakesUrl(year));
    if menu.status != StatusOk then (db, [], FetchFailed)
    else
      var (d, created, e) := Ingest.AddManufacturers(db, menu.items);
      (d, created, if e.Some? then Raised(e.value) else Done)
  }

  /** The returned flags are the `created` results, one per menu value processed. */
  method ScrapeManufacturers(db: Store, year: int, fetch: string -> Menu) returns (created: seq<bool>, outcome: Outcome)
    requires db.Valid()
    modifies db
    ensures db.Valid()
    ensures (db.State(), created, outcome) == ManufacturersForYear(old(db.State()), year, fetch)
  {
    var menu := fetch(MakesUrl(year));
    if menu.status != StatusOk {
      return [], FetchFailed;
    }
    var error;
    created, error := Ingest.GetOrCreateManufacturers(db, menu.items);
    outcome := if error.Some? then Raised(error.value) else Done;
  }
}
