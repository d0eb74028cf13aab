/**
 * The catalog records of `carcomparer/cars/models.py`: manufacturers, models,
 * their variations (trims) and prices, plus the model-year and vehicle-type
 * records the commands use. Every record carries its surrogate primary key.
 */
module CarModels {
  import opened Wrappers
  import Text

  /** The closed set of fuel-type choices of a variation. */
  datatype FuelType = Gasoline | Diesel | Electric | Hybrid

  /** A freshly created variation is a gasoline one. */
  const DefaultFuel: FuelType := Gasoline

  /** The one-letter code stored in the database. */
  function FuelCode(f: FuelType): char {
    match f
    case Gasoline => 'G'
    case Diesel => 'D'
    case Electric => 'E'
    case Hybrid => 'H'
  }

  /** The human-readable label of a choice. */
  function FuelLabel(f: FuelType): string {
    match f
    case Gasoline => "Gasoline"
    case Diesel => "Diesel"
    case Electric => "Electric"
    case Hybrid => "Hybrid"
  }

  /** Validation of a stored code against the choices: only G, D, E and H are accepted. */
  function FuelFromCode(c: char): (r: Option<FuelType>)
    ensures r.Some? <==> c in "GDEH"
    ensures r.Some? ==> FuelCode(r.value) == c
  {
    if c == 'G' then Some(Gasoline)
    else if c == 'D' then Some(Diesel)
    else if c == 'E' then Some(Electric)
    else if c == 'H' then Some(Hybrid)
    else None
  }

  /** Every choice survives the trip through its code. */
  lemma FuelCodeRoundTrip(f: FuelType)
    ensures FuelFromCode(FuelCode(f)) == Some(f)
  {
  }

  /** A calendar date as stored in a `DateField`. */
  datatype Date = Date(year: int, month: int, day: int)

  datatype Manufacturer = Manufacturer(id: int, name: string, country: string, founded: Option<Date>, description: Option<string>)

  datatype VehicleType = VehicleType(id: int, name: string)

  /** A model of one manufacturer in one year, optionally classified by a vehicle type. */
  datatype Model = Model(id: int, manufacturer: int, name: string, year: int, vehicleType: Option<int>)

  datatype ModelYear = ModelYear(id: int, model: int, year: int)

  /** A variation hangs under a model (FuelEconomy, scrape) or under a model-year (Google). */
  datatype Parent = OfModel(model: int) | OfModelYear(modelYear: int)

  datatype Variation = Variation(id: int, parent: Parent, name: string, fuel: FuelType)

  /** A price belongs to one variation (`car`); the relation is one-to-one. */
  datatype Price = Price(id: int, car: int, amount: int, currency: string)

  const DefaultCurrency: string := "USD"

  // ------------------------------------------------------------ keys used by the commands

  datatype ModelKey = ModelKey(manufacturer: int, name: string, year: int)

  datatype VariationKey = VariationKey(parent: Parent, name: string)

  function ManufacturerId(m: Manufacturer): int { m.id }
  function VehicleTypeId(v: VehicleType): int { v.id }
  function ModelId(m: Model): int { m.id }
  function ModelYearId(y: ModelYear): int { y.id }
  function VariationId(v: Variation): int { v.id }
  function PriceId(p: Price): int { p.id }

  function ManufacturerName(m: Manufacturer): string { m.name }
  function VehicleTypeName(v: VehicleType): string { v.name }
  function KeyOfModel(m: Model): ModelKey { ModelKey(m.manufacturer, m.name, m.year) }
  function KeyOfVariation(v: Variation): VariationKey { VariationKey(v.parent, v.name) }
  function PricedCar(p: Price): int { p.car }

  // ------------------------------------------------------------ display names

  /** `CarModel.full_name`: year, manufacturer name and model name separated by single spaces. */
  function ModelFullName(m: Model, maker: Manufacturer): string
    requires maker.id == m.manufacturer
  {
    Text.IntToString(m.year) + " " + maker.name + " " + m.name
  }

  /** `CarVariation.full_name`: the model's full name, a space, then the variation name. */
  function VariationFullName(v: Variation, m: Model, maker: Manufacturer): string
    requires v.parent == OfModel(m.id) && maker.id == m.manufacturer
  {
    ModelFullName(m, maker) + " " + v.name
  }

  /** `CarPrice.__str__`: the variation's full name, " - ", the amount, a space and the currency. */
  function PriceLabel(p: Price, v: Variation, m: Model, maker: Manufacturer): string
    requires p.car == v.id && v.parent == OfModel(m.id) && maker.id == m.manufacturer
  {
    VariationFullName(v, m, maker) + " - " + Text.IntToString(p.amount) + " " + p.currency
  }

  /**
   * A model's full name can be read back: the text before the first space is
   * the year, and when the manufacturer name has no space, the rest splits at
   * the next space into manufacturer name and model name.
   */
  lemma ModelFullNameReadBack(m: Model, maker: Manufacturer)
    requires maker.id == m.manufacturer && ' ' !in maker.name
    ensures var parts := Text.SplitOnce(ModelFullName(m, maker), ' ');
            |parts| == 2 && Text.ParseInt(parts[0]) == Some(m.year)
            && Text.SplitOnce(parts[1], ' ') == [maker.name, m.name]
  {
    var y := Text.IntToString(m.year);
    assert forall k :: 0 <= k < |y| ==> y[k] != ' ';
    var rest := maker.name + " " + m.name;
    assert ModelFullName(m, maker) == y + [' '] + rest;
    Text.SplitOnceAt(y, rest, ' ');
    Text.IntToStringRoundTrip(m.year);
    assert rest == maker.name + [' '] + m.name;
    Text.SplitOnceAt(maker.name, m.name, ' ');
  }

  /** Two variations of one model have the same full name exactly when they have the same name. */
  lemma VariationFullNameInjective(v: Variation, w: Variation, m: Model, maker: Manufacturer)
    requires v.parent == OfModel(m.id) && w.parent == OfModel(m.id) && maker.id == m.manufacturer
    ensures VariationFullName(v, m, maker) == VariationFullName(w, m, maker) <==> v.name == w.name
  {
    var p := ModelFullName(m, maker) + " ";
    if VariationFullName(v, m, maker) == VariationFullName(w, m, maker) {
      assert v.name == (p + v.name)[|p|..];
      assert w.name == (p + w.name)[|p|..];
    }
  }

  /** A price label ends with the currency; a price created with the default currency reads "... USD". */
  lemma PriceLabelCurrency(p: Price, v: Variation, m: Model, maker: Manufacturer)
    requires p.car == v.id && v.parent == OfModel(m.id) && maker.id == m.manufacturer
    ensures var shown := PriceLabel(p, v, m, maker);
            |shown| >= |p.currency| + 1 && shown[|shown| - |p.currency|..] == p.currency
            && shown[|shown| - |p.currency| - 1] == ' '
            && Text.StartsWith(shown, VariationFullName(v, m, maker) + " - ")
  {
  }
}
