/**
 * The catalog database: one table per record kind, rows in ascending
 * primary-key order, keys handed out from one counter. `Db` is the value of
 * the whole database; `Store` is the mutable database the commands write to,
 * and each of its methods is specified by the function on `Db` of the same name
 * (module Database).
 */
module Catalog {
  import opened Wrappers
  import opened Query
  import opened CarModels

  datatype Db = Db(
    manufacturers: seq<Manufacturer>,
    vehicleTypes: seq<VehicleType>,
    models: seq<Model>,
    modelYears: seq<ModelYear>,
    variations: seq<Variation>,
    prices: seq<Price>,
    nextId: int)

  const Empty: Db := Db([], [], [], [], [], [], 1)

  ghost predicate ParentExists(db: Db, p: Parent) {
    match p
    case OfModel(m) => m in Ids(db.models, ModelId)
    case OfModelYear(y) => y in Ids(db.modelYears, ModelYearId)
  }

  /** At most one price per variation (the one-to-one `car` relation). */
  ghost predicate OneToOne(prices: seq<Price>) {
    forall p, q :: p in prices && q in prices && p.car == q.car ==> p == q
  }

  /** Keys are ordered and below the counter, every reference points at an existing row. */
  ghost predicate WellFormed(db: Db) {
    && db.nextId > 0
    && Numbered(db.manufacturers, ManufacturerId, db.nextId)
    && Numbered(db.vehicleTypes, VehicleTypeId, db.nextId)
    && Numbered(db.models, ModelId, db.nextId)
    && Numbered(db.modelYears, ModelYearId, db.nextId)
    && Numbered(db.variations, VariationId, db.nextId)
    && Numbered(db.prices, PriceId, db.nextId)
    && (forall m :: m in db.models ==> m.manufacturer in Ids(db.manufacturers, ManufacturerId))
    && (forall m :: m in db.models && m.vehicleType.Some? ==> m.vehicleType.value in Ids(db.vehicleTypes, VehicleTypeId))
    && (forall y :: y in db.modelYears ==> y.model in Ids(db.models, ModelId))
    && (forall v :: v in db.variations ==> ParentExists(db, v.parent))
    && (forall p :: p in db.prices ==> p.car in Ids(db.variations, VariationId))
    && OneToOne(db.prices)
  }

  lemma EmptyWellFormed()
    ensures WellFormed(Empty)
  {
  }

  function Advance(db: Db, created: bool): int {
    if created then db.nextId + 1 else db.nextId
  }

  // ------------------------------------------------------------ inserting one row

  lemma IdsAppend<T>(t: seq<T>, x: T, id: T -> int)
    ensures Ids(t + [x], id) == Ids(t, id) + {id(x)}
  {
    assert forall y :: y in t + [x] <==> y in t || y == x;
  }

  lemma NumberedBump<T>(t: seq<T>, id: T -> int, next: int)
    requires Numbered(t, id, next)
    ensures Numbered(t, id, next + 1)
  {
  }

  lemma AddManufacturer(db: Db, x: Manufacturer)
    requires WellFormed(db) && x.id == db.nextId
    ensures WellFormed(db.(manufacturers := db.manufacturers + [x], nextId := db.nextId + 1))
  {
    NumberedAppend(db.manufacturers, ManufacturerId, db.nextId, x);
    IdsAppend(db.manufacturers, x, ManufacturerId);
  }

  lemma AddVehicleType(db: Db, x: VehicleType)
    requires WellFormed(db) && x.id == db.nextId
    ensures WellFormed(db.(vehicleTypes := db.vehicleTypes + [x], nextId := db.nextId + 1))
  {
    NumberedAppend(db.vehicleTypes, VehicleTypeId, db.nextId, x);
    IdsAppend(db.vehicleTypes, x, VehicleTypeId);
  }

  lemma AddModel(db: Db, x: Model)
    requires WellFormed(db) && x.id == db.nextId
    requires x.manufacturer in Ids(db.manufacturers, ManufacturerId) && x.vehicleType == None
    ensures WellFormed(db.(models := db.models + [x], nextId := db.nextId + 1))
  {
    NumberedAppend(db.models, ModelId, db.nextId, x);
    IdsAppend(db.models, x, ModelId);
  }

  lemma AddVariation(db: Db, x: Variation)
    requires WellFormed(db) && x.id == db.nextId && ParentExists(db, x.parent)
    ensures WellFormed(db.(variations := db.variations + [x], nextId := db.nextId + 1))
  {
    NumberedAppend(db.variations, VariationId, db.nextId, x);
    IdsAppend(db.variations, x, VariationId);
  }

  lemma AddPrice(db: Db, x: Price)
    requires WellFormed(db) && x.id == db.nextId && x.car in Ids(db.variations, VariationId)
    requires forall p :: p in db.prices ==> p.car != x.car
    ensures WellFormed(db.(prices := db.prices + [x], nextId := db.nextId + 1))
  {
    NumberedAppend(db.prices, PriceId, db.nextId, x);
    assert forall p :: p in db.prices + [x] <==> p in db.prices || p == x;
  }

  // ------------------------------------------------------------ get_or_create per table

  function GetOrCreateManufacturer(db: Db, name: string): (r: (Db, Result<Got<Manufacturer>, StoreError>))
    requires WellFormed(db)
    ensures WellFormed(r.0)
    ensures r.1 == GetOrCreate(db.manufacturers, ManufacturerName, name, Manufacturer(db.nextId, name, "", None, None)).1
    ensures r.0 == db.(manufacturers := GetOrCreate(db.manufacturers, ManufacturerName, name, Manufacturer(db.nextId, name, "", None, None)).0, nextId := Advance(db, r.1.Ok? && r.1.value.created))
  {
    var (t, res) := GetOrCreate(db.manufacturers, ManufacturerName, name, Manufacturer(db.nextId, name, "", None, None));
    if res.Ok? && res.value.created then
      AddManufacturer(db, res.value.row);
      (db.(manufacturers := t, nextId := db.nextId + 1), res)
    else (db, res)
  }


  function GetOrCreateVehicleType(db: Db, name: string): (r: (Db, Result<Got<VehicleType>, StoreError>))
    requires WellFormed(db)
    ensures WellFormed(r.0)
    ensures r.1 == GetOrCreate(db.vehicleTypes, VehicleTypeName, name, VehicleType(db.nextId, name)).1
    ensures r.0 == db.(vehicleTypes := GetOrCreate(db.vehicleTypes, VehicleTypeName, name, VehicleType(db.nextId, name)).0, nextId := Advance(db, r.1.Ok? && r.1.value.created))
  {
    var (t, res) := GetOrCreate(db.vehicleTypes, VehicleTypeName, name, VehicleType(db.nextId, name));
    if res.Ok? && res.value.created then
      AddVehicleType(db, res.value.row);
      (db.(vehicleTypes := t, nextId := db.nextId + 1), res)
    else (db, res)
  }


  function GetOrCreateModel(db: Db, maker: int, name: string, year: int): (r: (Db, Result<Got<Model>, StoreError>))
    requires WellFormed(db) && maker in Ids(db.manufacturers, ManufacturerId)
    ensures r.1 == GetOrCreate(db.models, KeyOfModel, ModelKey(maker, name, year), Model(db.nextId, maker, name, year, None)).1
    ensures r.0 == db.(models := GetOrCreate(db.models, KeyOfModel, ModelKey(maker, name, year), Model(db.nextId, maker, name, year, None)).0, nextId := Advance(db, r.1.Ok? && r.1.value.created))
  {
    var (t, res) := GetOrCreate(db.models, KeyOfModel, ModelKey(maker, name, year), Model(db.nextId, maker, name, year, None));
    if res.Ok? && res.value.created then (db.(models := t, nextId := db.nextId + 1), res)
    else (db, res)
  }

  lemma GetOrCreateModelWellFormed(db: Db, maker: int, name: string, year: int)
    requires WellFormed(db) && maker in Ids(db.manufacturers, ManufacturerId)
    ensures WellFormed(GetOrCreateModel(db, maker, name, year).0)
  {
    var row := Model(db.nextId, maker, name, year, None);
    var (t, res) := GetOrCreate(db.models, KeyOfModel, ModelKey(maker, name, year), row);
    if res.Ok? && res.value.created {
      AddModel(db, row);
      assert GetOrCreateModel(db, maker, name, year).0 == db.(models := db.models + [row], nextId := db.nextId + 1);
    } else {
      assert GetOrCreateModel(db, maker, name, year).0 == db;
    }
  }


  function GetOrCreateVariation(db: Db, parent: Parent, name: string): (r: (Db, Result<Got<Variation>, StoreError>))
    requires WellFormed(db) && ParentExists(db, parent)
    ensures WellFormed(r.0)
    ensures r.1 == GetOrCreate(db.variations, KeyOfVariation, VariationKey(parent, name), Variation(db.nextId, parent, name, DefaultFuel)).1
    ensures r.0 == db.(variations := GetOrCreate(db.variations, KeyOfVariation, VariationKey(parent, name), Variation(db.nextId, parent, name, DefaultFuel)).0, nextId := Advance(db, r.1.Ok? && r.1.value.created))
  {
    var (t, res) := GetOrCreate(db.variations, KeyOfVariation, VariationKey(parent, name), Variation(db.nextId, parent, name, DefaultFuel));
    if res.Ok? && res.value.created then
      AddVariation(db, res.value.row);
      (db.(variations := t, nextId := db.nextId + 1), res)
    else (db, res)
  }


  /**
   * `Price.objects.create`: a new price row for the variation, or an
   * `IntegrityError` when the variation already has its one price.
   */
  function CreatePrice(db: Db, car: int, amount: int, currency: string): (r: (Db, Result<Price, StoreError>))
    requires WellFormed(db) && car in Ids(db.variations, VariationId)
    ensures WellFormed(r.0)
    ensures r.1.Err? <==> exists p :: p in db.prices && p.car == car
    ensures r.1.Err? ==> r.0 == db && r.1.error == IntegrityError
    ensures r.1.Ok? ==> (r.1.value == Price(db.nextId, car, amount, currency)
                         && r.0 == db.(prices := db.prices + [r.1.value], nextId := db.nextId + 1))
  {
    if exists p :: p in db.prices && p.car == car then (db, Err(IntegrityError))
    else
      var p := Price(db.nextId, car, amount, currency);
      AddPrice(db, p);
      (db.(prices := db.prices + [p], nextId := db.nextId + 1), Ok(p))
  }

  /** The names of the manufacturers, in table order. */
  function Names(makers: seq<Manufacturer>): (r: seq<string>)
    ensures |r| == |makers| && forall i :: 0 <= i < |makers| ==> r[i] == makers[i].name
  {
    seq(|makers|, i requires 0 <= i < |makers| => makers[i].name)
  }

  /** `Manufacturer.objects.get(name=...)`. */
  function GetManufacturer(db: Db, name: string): (r: Result<Manufacturer, StoreError>)
    ensures r.Ok? ==> r.value in db.manufacturers && r.value.name == name
    ensures r.Ok? <==> |Hits(db.manufacturers, ManufacturerName, name)| == 1
  {
    Get(db.manufacturers, ManufacturerName, name)
  }

  // ------------------------------------------------------------ updates

  /**
   * `Model.objects.filter(manufacturer, name, year).update(vehicle_type=...)`:
   * every model with the key gets the vehicle type; the result is how many did.
   */
  function SetVehicleType(db: Db, key: ModelKey, vt: int): (r: (Db, nat))
    requires WellFormed(db) && vt in Ids(db.vehicleTypes, VehicleTypeId)
    ensures WellFormed(r.0)
    ensures r.0 == db.(models := r.0.models)
    ensures |r.0.models| == |db.models|
    ensures forall i :: 0 <= i < |db.models| ==>
      r.0.models[i] == if KeyOfModel(db.models[i]) == key then db.models[i].(vehicleType := Some(vt)) else db.models[i]
    ensures r.1 == |Hits(db.models, KeyOfModel, key)|
  {
    var ms := seq(|db.models|, i requires 0 <= i < |db.models| =>
      if KeyOfModel(db.models[i]) == key then db.models[i].(vehicleType := Some(vt)) else db.models[i]);
    ReplaceModels(db, ms);
    (db.(models := ms), |Hits(db.models, KeyOfModel, key)|)
  }

  lemma ReplaceModels(db: Db, ms: seq<Model>)
    requires WellFormed(db) && |ms| == |db.models|
    requires forall i :: 0 <= i < |ms| ==> ms[i].id == db.models[i].id && ms[i].manufacturer == db.models[i].manufacturer
    requires forall i :: 0 <= i < |ms| && ms[i].vehicleType.Some? ==> ms[i].vehicleType.value in Ids(db.vehicleTypes, VehicleTypeId)
    ensures WellFormed(db.(models := ms))
  {
    SameIds(db.models, ms);
    forall m | m in ms ensures 0 < m.id < db.nextId && m.manufacturer in Ids(db.manufacturers, ManufacturerId) {
      var i :| 0 <= i < |ms| && ms[i] == m;
      assert db.models[i] in db.models;
    }
    assert Ascending(ms, ModelId);
  }

  lemma SameIds(a: seq<Model>, b: seq<Model>)
    requires |a| == |b| && forall i :: 0 <= i < |a| ==> b[i].id == a[i].id && b[i].manufacturer == a[i].manufacturer
    ensures Ids(a, ModelId) == Ids(b, ModelId)
  {
    forall x | x in Ids(a, ModelId) ensures x in Ids(b, ModelId) {
      var m :| m in a && m.id == x;
      var i :| 0 <= i < |a| && a[i] == m;
      assert b[i] in b;
    }
    forall x | x in Ids(b, ModelId) ensures x in Ids(a, ModelId) {
      var m :| m in b && m.id == x;
      var i :| 0 <= i < |b| && b[i] == m;
      assert a[i] in a;
    }
  }

  lemma ReplaceManufacturers(db: Db, ms: seq<Manufacturer>)
    requires WellFormed(db) && |ms| == |db.manufacturers|
    requires forall i :: 0 <= i < |ms| ==> ms[i].id == db.manufacturers[i].id
    ensures WellFormed(db.(manufacturers := ms))
  {
    assert Ids(ms, ManufacturerId) == Ids(db.manufacturers, ManufacturerId) by {
      forall x | x in Ids(db.manufacturers, ManufacturerId) ensures x in Ids(ms, ManufacturerId) {
        var a :| a in db.manufacturers && a.id == x;
        var i :| 0 <= i < |db.manufacturers| && db.manufacturers[i] == a;
        assert ms[i] in ms;
      }
      forall x | x in Ids(ms, ManufacturerId) ensures x in Ids(db.manufacturers, ManufacturerId) {
        var a :| a in ms && a.id == x;
        var i :| 0 <= i < |ms| && ms[i] == a;
        assert db.manufacturers[i] in db.manufacturers;
      }
    }
    forall a | a in ms ensures 0 < a.id < db.nextId {
      var i :| 0 <= i < |ms| && ms[i] == a;
      assert db.manufacturers[i] in db.manufacturers;
    }
    assert Ascending(ms, ManufacturerId);
  }

  /** `manufacturer.save()`: the row with the record's key is replaced by the record. */
  function SaveManufacturer(db: Db, m: Manufacturer): (r: Db)
    requires WellFormed(db) && m.id in Ids(db.manufacturers, ManufacturerId)
    ensures WellFormed(r)
    ensures r == db.(manufacturers := r.manufacturers) && |r.manufacturers| == |db.manufacturers|
    ensures forall i :: 0 <= i < |db.manufacturers| ==>
      r.manufacturers[i] == if db.manufacturers[i].id == m.id then m else db.manufacturers[i]
  {
    var ms := seq(|db.manufacturers|, i requires 0 <= i < |db.manufacturers| =>
      if db.manufacturers[i].id == m.id then m else db.manufacturers[i]);
    ReplaceManufacturers(db, ms);
    db.(manufacturers := ms)
  }

  // ------------------------------------------------------------ deletion with cascade

  /** Keys of the model-years that belong to one of the given models. */
  function YearsOf(db: Db, models: set<int>): set<int> {
    set y | y in db.modelYears && y.model in models :: y.id
  }

  predicate Orphaned(v: Variation, models: set<int>, years: set<int>) {
    match v.parent
    case OfModel(m) => m in models
    case OfModelYear(y) => y in years
  }

  /** Keys of the variations that hang under one of the given models or model-years. */
  function VariationsOf(db: Db, models: set<int>, years: set<int>): set<int> {
    set v | v in db.variations && Orphaned(v, models, years) :: v.id
  }

  /**
   * Deleting models: every foreign key to a model, model-year and variation
   * cascades, so their model-years, variations and prices go too; nothing else changes.
   */
  function DeleteModels(db: Db, gone: set<int>): (r: Db)
    requires WellFormed(db)
    ensures WellFormed(r)
    ensures r.manufacturers == db.manufacturers && r.vehicleTypes == db.vehicleTypes && r.nextId == db.nextId
    ensures forall m :: m in r.models <==> m in db.models && m.id !in gone
    ensures forall y :: y in r.modelYears <==> y in db.modelYears && y.model !in gone
    ensures forall v :: v in r.variations <==> v in db.variations && !Orphaned(v, gone, YearsOf(db, gone))
    ensures forall p :: p in r.prices <==> p in db.prices && p.car !in VariationsOf(db, gone, YearsOf(db, gone))
  {
    var years := YearsOf(db, gone);
    var vars := VariationsOf(db, gone, years);
    var r := db.(
      models := Filter(db.models, (m: Model) => m.id !in gone),
      modelYears := Filter(db.modelYears, (y: ModelYear) => y.model !in gone),
      variations := Filter(db.variations, (v: Variation) => !Orphaned(v, gone, years)),
      prices := Filter(db.prices, (p: Price) => p.car !in vars));
    FilterNumbered(db.models, (m: Model) => m.id !in gone, ModelId, db.nextId);
    FilterNumbered(db.modelYears, (y: ModelYear) => y.model !in gone, ModelYearId, db.nextId);
    FilterNumbered(db.variations, (v: Variation) => !Orphaned(v, gone, years), VariationId, db.nextId);
    FilterNumbered(db.prices, (p: Price) => p.car !in vars, PriceId, db.nextId);
    forall y | y in r.modelYears ensures y.model in Ids(r.models, ModelId) {
      var m :| m in db.models && m.id == y.model;
      assert m in r.models;
    }
    forall v | v in r.variations ensures ParentExists(r, v.parent) {
      if v.parent.OfModel? {
        var m :| m in db.models && m.id == v.parent.model;
        assert m in r.models;
      } else {
        var y :| y in db.modelYears && y.id == v.parent.modelYear;
        assert y.model !in gone;
        assert y in r.modelYears;
      }
    }
    forall p | p in r.prices ensures p.car in Ids(r.variations, VariationId) {
      var v :| v in db.variations && v.id == p.car;
      assert v in r.variations;
    }
    r
  }

  /** The ids of the models of manufacturer `maker`. */
  function ModelsOf(db: Db, maker: int): set<int> {
    set m | m in db.models && m.manufacturer == maker :: m.id
  }

  /** Deleting a manufacturer cascades to its models and, through them, to everything below. */
  function DeleteManufacturer(db: Db, maker: int): (r: Db)
    requires WellFormed(db)
    ensures WellFormed(r)
    ensures forall m :: m in r.manufacturers <==> m in db.manufacturers && m.id != maker
    ensures forall m :: m in r.models <==> m in db.models && m.manufacturer != maker
    ensures r.vehicleTypes == db.vehicleTypes && r.nextId == db.nextId
    ensures var gone := ModelsOf(db, maker);
      && (forall y :: y in r.modelYears <==> y in db.modelYears && y.model !in gone)
      && (forall v :: v in r.variations <==> v in db.variations && !Orphaned(v, gone, YearsOf(db, gone)))
      && (forall p :: p in r.prices <==> p in db.prices && p.car !in VariationsOf(db, gone, YearsOf(db, gone)))
  {
    var d := DeleteModels(db, ModelsOf(db, maker));
    var keep := (m: Manufacturer) => m.id != maker;
    var r := d.(manufacturers := Filter(d.manufacturers, keep));
    FilterNumbered(d.manufacturers, keep, ManufacturerId, d.nextId);
    ManufacturerRemoved(db, maker, d, r.manufacturers);
    r
  }

  /**
   * After its models are gone, removing the manufacturer row itself keeps the
   * catalog well formed, and the models left are those of other manufacturers.
   */
  lemma ManufacturerRemoved(db: Db, maker: int, d: Db, rest: seq<Manufacturer>)
    requires WellFormed(db) && d == DeleteModels(db, ModelsOf(db, maker))
    requires forall m :: m in rest <==> m in db.manufacturers && m.id != maker
    requires Numbered(rest, ManufacturerId, d.nextId)
    ensures WellFormed(d.(manufacturers := rest))
    ensures forall m :: m in d.models <==> m in db.models && m.manufacturer != maker
  {
    var gone := ModelsOf(db, maker);
    var r := d.(manufacturers := rest);
    forall m | m in db.models ensures m.id in gone <==> m.manufacturer == maker {
      if m.id in gone {
        var m' :| m' in db.models && m'.manufacturer == maker && m'.id == m.id;
        AscendingIdsUnique(db.models, ModelId, m, m');
      }
    }
    forall m | m in r.models ensures m.manufacturer in Ids(r.manufacturers, ManufacturerId) {
      var a :| a in db.manufacturers && a.id == m.manufacturer;
      assert a in r.manufacturers;
    }
  }
}
