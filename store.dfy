/**
 * The mutable catalog database the commands write to. Each method performs
 * one ORM call and is specified by the function of the same name in module
 * Catalog; the database is the only state shared by the commands.
 */
module Database {
  import opened Wrappers
  import opened Query
  import opened CarModels
  import Catalog

  class Store {
    var manufacturers: seq<Manufacturer>
    var vehicleTypes: seq<VehicleType>
    var models: seq<Model>
    var modelYears: seq<ModelYear>
    var variations: seq<Variation>
    var prices: seq<Price>
    var nextId: int

    function State(): Catalog.Db
      reads this
    {
      Catalog.Db(manufacturers, vehicleTypes, models, modelYears, variations, prices, nextId)
    }

    ghost predicate Valid()
      reads this
    {
      Catalog.WellFormed(State())
    }

    constructor ()
      ensures State() == Catalog.Empty && Valid()
    {
      manufacturers, vehicleTypes, models, modelYears, variations, prices := [], [], [], [], [], [];
      nextId := 1;
    }

    method Load(db: Catalog.Db)
      modifies this
      ensures State() == db
    {
      manufacturers, vehicleTypes, models, modelYears := db.manufacturers, db.vehicleTypes, db.models, db.modelYears;
      variations, prices, nextId := db.variations, db.prices, db.nextId;
    }

    method GetOrCreateManufacturer(name: string) returns (r: Result<Got<Manufacturer>, StoreError>)
      requires Valid()
      modifies this
      ensures Valid()
      ensures (State(), r) == Catalog.GetOrCreateManufacturer(old(State()), name)
    {
      var (db, res) := Catalog.GetOrCreateManufacturer(State(), name);
      Load(db);
      r := res;
    }

    method GetOrCreateVehicleType(name: string) returns (r: Result<Got<VehicleType>, StoreError>)
      requires Valid()
      modifies this
      ensures Valid()
      ensures (State(), r) == Catalog.GetOrCreateVehicleType(old(State()), name)
    {
      var (db, res) := Catalog.GetOrCreateVehicleType(State(), name);
      Load(db);
      r := res;
    }

    method GetOrCreateModel(maker: int, name: string, year: int) returns (r: Result<Got<Model>, StoreError>)
      requires Valid() && maker in Ids(manufacturers, ManufacturerId)
      modifies this
      ensures Valid()
      ensures (State(), r) == Catalog.GetOrCreateModel(old(State()), maker, name, year)
    {
      Catalog.GetOrCreateModelWellFormed(State(), maker, name, year);
      var (db, res) := Catalog.GetOrCreateModel(State(), maker, name, year);
      Load(db);
      r := res;
    }

    method GetOrCreateVariation(parent: Parent, name: string) returns (r: Result<Got<Variation>, StoreError>)
      requires Valid() && Catalog.ParentExists(State(), parent)
      modifies this
      ensures Valid()
      ensures (State(), r) == Catalog.GetOrCreateVariation(old(State()), parent, name)
    {
      var (db, res) := Catalog.GetOrCreateVariation(State(), parent, name);
      Load(db);
      r := res;
    }

    method CreatePrice(car: int, amount: int, currency: string) returns (r: Result<Price, StoreError>)
      requires Valid() && car in Ids(variations, VariationId)
      modifies this
      ensures Valid()
      ensures (State(), r) == Catalog.CreatePrice(old(State()), car, amount, currency)
    {
      var (db, res) := Catalog.CreatePrice(State(), car, amount, currency);
      Load(db);
      r := res;
    }

    method GetManufacturer(name: string) returns (r: Result<Manufacturer, StoreError>)
      ensures r == Catalog.GetManufacturer(State(), name)
    {
      r := Get(manufacturers, ManufacturerName, name);
    }

    method SetVehicleType(key: ModelKey, vt: int) returns (count: nat)
      requires Valid() && vt in Ids(vehicleTypes, VehicleTypeId)
      modifies this
      ensures Valid()
      ensures (State(), count) == Catalog.SetVehicleType(old(State()), key, vt)
    {
      var (db, n) := Catalog.SetVehicleType(State(), key, vt);
      models, count := db.models, n;
    }

    method SaveManufacturer(m: Manufacturer)
      requires Valid() && m.id in Ids(manufacturers, ManufacturerId)
      modifies this
      ensures Valid()
      ensures State() == Catalog.SaveManufacturer(old(State()), m)
    {
      manufacturers := Catalog.SaveManufacturer(State(), m).manufacturers;
    }

    method DeleteModels(gone: set<int>)
      requires Valid()
      modifies this
      ensures Valid()
      ensures State() == Catalog.DeleteModels(old(State()), gone)
    {
      Load(Catalog.DeleteModels(State(), gone));
    }

    method DeleteManufacturer(maker: int)
      requires Valid()
      modifies this
      ensures Valid()
      ensures State() == Catalog.DeleteManufacturer(old(State()), maker)
    {
      Load(Catalog.DeleteManufacturer(State(), maker));
    }
  }
}
