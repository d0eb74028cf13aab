/**
 * The NHTSA vPIC command: models of each manufacturer for a year, and the
 * vehicle-type back-fill. A vPIC response is reduced to its status, its
 * `Count` and the one field the command reads from each of its `Results`.
 */
module Nhtsa {
  import opened Wrappers
  import opened Text
  import opened Query
  import opened CarModels
  import opened Catalog
  import Database
  import opened Web

  /** A vPIC JSON response: status, `Count`, and the `Model_Name` or `VehicleTypeName` of each result. */
  datatype Reply = Reply(status: int, count: int, results: seq<string>)

  const Api := "https://vpic.nhtsa.dot.gov/api/vehicles/"

  function MakeYearUrl(year: int, make: string): string {
    Api + "getmodelsformakeyear/make/" + make + "/modelyear/" + IntToString(year) + "?format=json"
  }

  function TypesUrl(make: string): string {
    Api + "GetVehicleTypesForMake/" + make + "?format=json"
  }

  function MakeYearTypeUrl(year: int, make: string, vehicleType: string): string {
    Api + "getmodelsformakeyear/make/" + make + "/modelyear/" + IntToString(year) + "/vehicleType/" + vehicleType + "?format=json"
  }

  // ---------------------------------------------------------------- models of a manufacturer

  /** Only the model table and the key counter may differ, and no model row is lost. */
  ghost predicate OnlyModelsAdded(a: Db, b: Db) {
    b == a.(models := b.models, nextId := b.nextId) && a.models <= b.models
  }

  /** The key of the model `name` of manufacturer `maker` in `year`. */
  function KeyOf(maker: int, year: int): string -> ModelKey {
    name => ModelKey(maker, name, year)
  }

  /**
   * `Model.objects.get_or_create(manufacturer, name, year)` for each name in
   * turn: the database, the `created` flags, and the error that ended the loop.
   */
  function AddModels(db: Db, maker: int, names: seq<string>, year: int): (r: (Db, seq<bool>, Option<StoreError>))
    requires WellFormed(db) && maker in Ids(db.manufacturers, ManufacturerId)
    ensures WellFormed(r.0) && OnlyModelsAdded(db, r.0)
    ensures |r.1| <= |names| && (r.2.None? ==> |r.1| == |names|)
    ensures r.2.Some? ==> r.2.value == MultipleObjectsReturned
    decreases |names|
  {
    if names == [] then (db, [], None)
    else
      var (d1, res) := GetOrCreateModel(db, maker, names[0], year);
      ModelStepAdds(db, maker, names[0], year);
      if res.Err? then (d1, [], Some(res.error))
      else
        var (d2, flags, e) := AddModels(d1, maker, names[1..], year);
        OnlyModelsAddedTrans(db, d1, d2);
        (d2, [res.value.created] + flags, e)
  }

  /** One `get_or_create` on the model table keeps the database well formed and only adds a model row. */
  lemma ModelStepAdds(db: Db, maker: int, name: string, year: int)
    requires WellFormed(db) && maker in Ids(db.manufacturers, ManufacturerId)
    ensures var d1 := GetOrCreateModel(db, maker, name, year).0;
            WellFormed(d1) && OnlyModelsAdded(db, d1) && maker in Ids(d1.manufacturers, ManufacturerId)
  {
    GetOrCreateModelWellFormed(db, maker, name, year);
  }

  lemma OnlyModelsAddedTrans(a: Db, b: Db, c: Db)
    requires OnlyModelsAdded(a, b) && OnlyModelsAdded(b, c)
    ensures OnlyModelsAdded(a, c)
  {
  }

  /** A result with `earlier` flags put in front of its own. */
  function Logged(earlier: seq<bool>, r: (Db, seq<bool>, Option<StoreError>)): (Db, seq<bool>, Option<StoreError>) {
    (r.0, earlier + r.1, r.2)
  }

  lemma LoggedTwice(a: seq<bool>, b: seq<bool>, r: (Db, seq<bool>, Option<StoreError>))
    ensures Logged(a, Logged(b, r)) == Logged(a + b, r)
  {
    assert a + (b + r.1) == (a + b) + r.1;
  }

  lemma AddModelsFirst(db: Db, maker: int, names: seq<string>, year: int, after: Db, got: Result<Got<Model>, StoreError>)
    requires WellFormed(db) && maker in Ids(db.manufacturers, ManufacturerId) && names != []
    requires (after, got) == GetOrCreateModel(db, maker, names[0], year)
    ensures WellFormed(after) && maker in Ids(after.manufacturers, ManufacturerId)
    ensures AddModels(db, maker, names, year)
            == if got.Err? then (after, [], Some(got.error)) else Logged([got.value.created], AddModels(after, maker, names[1..], year))
  {
    GetOrCreateModelWellFormed(db, maker, names[0], year);
  }

  /** Every name of the list has exactly one model row for the manufacturer and year. */
  ghost predicate AllSingle(db: Db, maker: int, names: seq<string>, year: int) {
    forall x :: x in names ==> |Hits(db.models, KeyOfModel, ModelKey(maker, x, year))| == 1
  }

  /** A key with exactly one model row keeps it through any pass. */
  lemma {:induction false} KeepsSingleThroughPass(db: Db, maker: int, names: seq<string>, year: int, k: ModelKey)
    requires WellFormed(db) && maker in Ids(db.manufacturers, ManufacturerId)
    requires |Hits(db.models, KeyOfModel, k)| == 1
    ensures |Hits(AddModels(db, maker, names, year).0.models, KeyOfModel, k)| == 1
    decreases |names|
  {
    if names != [] {
      GetOrCreateModelWellFormed(db, maker, names[0], year);
      var (d1, res) := GetOrCreateModel(db, maker, names[0], year);
      GetOrCreateKeepsSingle(db.models, KeyOfModel, ModelKey(maker, names[0], year), Model(db.nextId, maker, names[0], year, None), k);
      if res.Ok? {
        KeepsSingleThroughPass(d1, maker, names[1..], year, k);
      }
    }
  }

  /** After a pass that raised nothing, every name has exactly one model row. */
  lemma {:induction false} AddModelsAllSingle(db: Db, maker: int, names: seq<string>, year: int)
    requires WellFormed(db) && maker in Ids(db.manufacturers, ManufacturerId)
    requires AddModels(db, maker, names, year).2.None?
    ensures AllSingle(AddModels(db, maker, names, year).0, maker, names, year)
    decreases |names|
  {
    if names != [] {
      GetOrCreateModelWellFormed(db, maker, names[0], year);
      var (d1, res) := GetOrCreateModel(db, maker, names[0], year);
      AddModelsAllSingle(d1, maker, names[1..], year);
      forall x | x in names
        ensures |Hits(AddModels(db, maker, names, year).0.models, KeyOfModel, ModelKey(maker, x, year))| == 1
      {
        if x !in names[1..] {
          assert x == names[0];
          KeepsSingleThroughPass(d1, maker, names[1..], year, ModelKey(maker, x, year));
        }
      }
    }
  }

  /** When every name already has its one row, the pass creates nothing and changes nothing. */
  lemma {:induction false} AllPresentNoChange(db: Db, maker: int, names: seq<string>, year: int)
    requires WellFormed(db) && maker in Ids(db.manufacturers, ManufacturerId)
    requires AllSingle(db, maker, names, year)
    ensures AddModels(db, maker, names, year) == (db, seq(|names|, _ => false), None)
    decreases |names|
  {
    if names != [] {
      var (d1, res) := GetOrCreateModel(db, maker, names[0], year);
      ModelFoundUnchanged(db, maker, names, year);
      AddModelsFirst(db, maker, names, year, d1, res);
      AllSingleTail(db, maker, names, year);
      AllPresentNoChange(db, maker, names[1..], year);
      NoFlagsCons(|names|);
    } else {
      assert seq(0, _ => false) == [];
    }
  }

  /** The first name already has its row: nothing changes and nothing is created. */
  lemma ModelFoundUnchanged(db: Db, maker: int, names: seq<string>, year: int)
    requires WellFormed(db) && maker in Ids(db.manufacturers, ManufacturerId)
    requires names != [] && AllSingle(db, maker, names, year)
    ensures GetOrCreateModel(db, maker, names[0], year).0 == db
    ensures GetOrCreateModel(db, maker, names[0], year).1.Ok? && !GetOrCreateModel(db, maker, names[0], year).1.value.created
  {
    assert names[0] in names;
  }

  lemma AllSingleTail(db: Db, maker: int, names: seq<string>, year: int)
    requires names != [] && AllSingle(db, maker, names, year)
    ensures AllSingle(db, maker, names[1..], year)
  {
    forall x | x in names[1..] ensures |Hits(db.models, KeyOfModel, ModelKey(maker, x, year))| == 1 {
      assert x in names;
    }
  }

  lemma NoFlagsCons(n: nat)
    requires n > 0
    ensures [false] + seq(n - 1, _ => false) == seq(n, _ => false)
  {
  }

  /** `scrape_models_for_manufacturer`: how one manufacturer's model query ended. */
  function ModelsForManufacturer(db: Db, year: int, name: string, fetch: string -> Reply): (r: (Db, seq<bool>, Outcome))
    requires WellFormed(db)
    ensures WellFormed(r.0)
    ensures r.0 == db.(manufacturers := r.0.manufacturers, models := r.0.models, nextId := r.0.nextId)
    ensures db.models <= r.0.models && db.manufacturers <= r.0.manufacturers
    ensures r.2 == FetchFailed <==> fetch(MakeYearUrl(year, name)).status != StatusOk
    ensures r.2 == FetchFailed || fetch(MakeYearUrl(year, name)).count <= 0 ==> r.0 == db && r.1 == []
    ensures r.2 == Done ==> |r.1| == |fetch(MakeYearUrl(year, name)).results| || fetch(MakeYearUrl(year, name)).count <= 0
    ensures r.2.Raised? ==> r.2.error == MultipleObjectsReturned
  {
    var reply := fetch(MakeYearUrl(year, name));
    if reply.status != StatusOk then (db, [], FetchFailed)
    else if reply.count <= 0 then (db, [], Done)
    else
      var (d1, got) := GetOrCreateManufacturer(db, name);
      if got.Err? then (d1, [], Raised(got.error))
      else
        assert got.value.row.id in Ids(d1.manufacturers, ManufacturerId);
        var (d2, created, e) := AddModels(d1, got.value.row.id, reply.results, year);
        (d2, created, if e.Some? then Raised(e.value) else Done)
  }

  /** Running the query again with the same reply finds the manufacturer and every model, and adds no row. */
  lemma ModelsForManufacturerRerun(db: Db, year: int, name: string, fetch: string -> Reply)
    requires WellFormed(db) && ModelsForManufacturer(db, year, name, fetch).2 == Done
    ensures var r := ModelsForManufacturer(db, year, name, fetch);
            ModelsForManufacturer(r.0, year, name, fetch) == (r.0, seq(|r.1|, _ => false), Done)
  {
    var reply := fetch(MakeYearUrl(year, name));
    if reply.count > 0 {
      var (d1, got) := GetOrCreateManufacturer(db, name);
      var maker := got.value.row;
      assert maker.id in Ids(d1.manufacturers, ManufacturerId);
      var d := AddModels(d1, maker.id, reply.results, year).0;
      AddModelsAllSingle(d1, maker.id, reply.results, year);
      GetOrCreateIdempotent(db.manufacturers, ManufacturerName, name, Manufacturer(db.nextId, name, "", None, None),
                            Manufacturer(d.nextId, name, "", None, None));
      assert GetOrCreateManufacturer(d, name) == (d, Ok(Got(maker, false)));
      AllPresentNoChange(d, maker.id, reply.results, year);
      var flags := AddModels(d1, maker.id, reply.results, year).1;
      assert |flags| == |reply.results|;
      assert ModelsForManufacturer(d, year, name, fetch) == (d, seq(|reply.results|, _ => false), Done);
    } else {
      assert seq(0, _ => false) == [];
    }
  }

  // ---------------------------------------------------------------- all manufacturers' models

  /**
   * `scrape_models`: the model query for every manufacturer name, in order.
   * Each worker's exception surfaces when its result is collected, so the
   * command raises the first one, after every name has had its turn.
   */
  function ModelsForAll(db: Db, names: seq<string>, year: int, fetch: string -> Reply): (r: (Db, Option<StoreError>))
    requires WellFormed(db)
    ensures WellFormed(r.0)
    ensures r.0 == db.(manufacturers := r.0.manufacturers, models := r.0.models, nextId := r.0.nextId)
    ensures db.models <= r.0.models && db.manufacturers <= r.0.manufacturers
    decreases |names|
  {
    if names == [] then (db, None)
    else ModelsStep(ModelsForAll(db, names[..|names| - 1], year, fetch), names[|names| - 1], year, fetch)
  }

  /** One worker of `scrape_models`; the first exception collected is kept. */
  function ModelsStep(r: (Db, Option<StoreError>), name: string, year: int, fetch: string -> Reply): (r2: (Db, Option<StoreError>))
    requires WellFormed(r.0)
    ensures WellFormed(r2.0)
    ensures r2.0 == r.0.(manufacturers := r2.0.manufacturers, models := r2.0.models, nextId := r2.0.nextId)
    ensures r.0.models <= r2.0.models && r.0.manufacturers <= r2.0.manufacturers
  {
    var (d, _, outcome) := ModelsForManufacturer(r.0, year, name, fetch);
    (d, if r.1.Some? then r.1 else if outcome.Raised? then Some(outcome.error) else None)
  }

  lemma ModelsForAllSnoc(db: Db, names: seq<string>, k: nat, year: int, fetch: string -> Reply)
    requires WellFormed(db) && k < |names|
    ensures ModelsForAll(db, names[..k + 1], year, fetch) == ModelsStep(ModelsForAll(db, names[..k], year, fetch), names[k], year, fetch)
  {
    assert names[..k + 1][..k] == names[..k];
  }

  // ---------------------------------------------------------------- vehicle types of a manufacturer

  /** Only the vehicle-type table and the key counter may differ, and no vehicle-type row is lost. */
  ghost predicate OnlyTypesAdded(a: Db, b: Db) {
    b == a.(vehicleTypes := b.vehicleTypes, nextId := b.nextId) && a.vehicleTypes <= b.vehicleTypes
  }

  /** `VehicleType.objects.get_or_create(name=...)` for each name in turn, up to the first error. */
  function AddVehicleTypes(db: Db, names: seq<string>): (r: (Db, Option<StoreError>))
    requires WellFormed(db)
    ensures WellFormed(r.0) && OnlyTypesAdded(db, r.0)
    ensures r.1.Some? ==> r.1.value == MultipleObjectsReturned
    decreases |names|
  {
    if names == [] then (db, None)
    else
      var (d1, res) := GetOrCreateVehicleType(db, names[0]);
      if res.Err? then (d1, Some(res.error))
      else AddVehicleTypes(d1, names[1..])
  }

  lemma AddVehicleTypesFirst(db: Db, names: seq<string>, after: Db, got: Result<Got<VehicleType>, StoreError>)
    requires WellFormed(db) && names != [] && (after, got) == GetOrCreateVehicleType(db, names[0])
    ensures AddVehicleTypes(db, names) == if got.Err? then (after, Some(got.error)) else AddVehicleTypes(after, names[1..])
  {
  }

  /** A name with exactly one vehicle-type row keeps it through any pass. */
  lemma {:induction false} TypeKeepsSingle(db: Db, names: seq<string>, x: string)
    requires WellFormed(db) && |Hits(db.vehicleTypes, VehicleTypeName, x)| == 1
    ensures |Hits(AddVehicleTypes(db, names).0.vehicleTypes, VehicleTypeName, x)| == 1
    decreases |names|
  {
    if names != [] {
      var (d1, res) := GetOrCreateVehicleType(db, names[0]);
      GetOrCreateKeepsSingle(db.vehicleTypes, VehicleTypeName, names[0], VehicleType(db.nextId, names[0]), x);
      if res.Ok? {
        TypeKeepsSingle(d1, names[1..], x);
      }
    }
  }

  /** After a pass that raised nothing, every name has exactly one vehicle-type row. */
  lemma {:induction false} AddVehicleTypesAllSingle(db: Db, names: seq<string>)
    requires WellFormed(db) && AddVehicleTypes(db, names).1.None?
    ensures forall x :: x in names ==> |Hits(AddVehicleTypes(db, names).0.vehicleTypes, VehicleTypeName, x)| == 1
    decreases |names|
  {
    if names != [] {
      var (d1, res) := GetOrCreateVehicleType(db, names[0]);
      AddVehicleTypesAllSingle(d1, names[1..]);
      forall x | x in names ensures |Hits(AddVehicleTypes(db, names).0.vehicleTypes, VehicleTypeName, x)| == 1 {
        if x !in names[1..] {
          TypeKeepsSingle(d1, names[1..], x);
        }
      }
    }
  }

  /**
   * `fetch_vehicle_types_for_manufacturer`: the type names of the reply in
   * order, each get-or-created; `[]` on a non-200 reply. An error ends it.
   */
  function FetchVehicleTypes(db: Db, make: string, fetch: string -> Reply): (r: (Db, seq<string>, Option<StoreError>))
    requires WellFormed(db)
    ensures WellFormed(r.0) && OnlyTypesAdded(db, r.0)
    ensures fetch(TypesUrl(make)).status != StatusOk ==> r == (db, [], None)
    ensures fetch(TypesUrl(make)).status == StatusOk && r.2.None? ==> r.1 == fetch(TypesUrl(make)).results
    ensures r.2.Some? ==> r.1 == []
  {
    var reply := fetch(TypesUrl(make));
    if reply.status != StatusOk then (db, [], None)
    else
      var (d, e) := AddVehicleTypes(db, reply.results);
      (d, if e.Some? then [] else reply.results, e)
  }

  /** Every type name returned has exactly one vehicle-type row afterwards. */
  lemma FetchedTypesStored(db: Db, make: string, fetch: string -> Reply)
    requires WellFormed(db) && FetchVehicleTypes(db, make, fetch).2.None?
    ensures var (d, types, _) := FetchVehicleTypes(db, make, fetch);
            forall x :: x in types ==> |Hits(d.vehicleTypes, VehicleTypeName, x)| == 1
  {
    if fetch(TypesUrl(make)).status == StatusOk {
      AddVehicleTypesAllSingle(db, fetch(TypesUrl(make)).results);
    }
  }

  // ---------------------------------------------------------------- the back-fill of one vehicle type

  /** The model `m` is one the results name, for this manufacturer and year. */
  predicate Named(m: Model, maker: int, year: int, names: seq<string>) {
    m.manufacturer == maker && m.year == year && m.name in names
  }

  /** Models keep their keys and ids: none is created, deleted or renamed. */
  ghost predicate SameModels(a: Db, b: Db) {
    |a.models| == |b.models|
    && forall i :: 0 <= i < |a.models| ==> a.models[i].id == b.models[i].id && KeyOfModel(a.models[i]) == KeyOfModel(b.models[i])
  }

  /**
   * The update loop: `filter(manufacturer, name, year).update(vehicle_type)`
   * for each result name in turn, counting the names that matched a model.
   */
  function SetAll(db: Db, maker: int, year: int, vt: int, names: seq<string>): (r: (Db, nat))
    requires WellFormed(db) && vt in Ids(db.vehicleTypes, VehicleTypeId)
    ensures WellFormed(r.0) && r.0 == db.(models := r.0.models) && SameModels(db, r.0)
    ensures r.1 <= |names|
    decreases |names|
  {
    if names == [] then (db, 0)
    else SetStep(SetAll(db, maker, year, vt, names[..|names| - 1]), ModelKey(maker, names[|names| - 1], year), vt)
  }

  /** One iteration of the update loop: the update, and the count raised when it touched a model. */
  function SetStep(r: (Db, nat), key: ModelKey, vt: int): (r2: (Db, nat))
    requires WellFormed(r.0) && vt in Ids(r.0.vehicleTypes, VehicleTypeId)
    ensures WellFormed(r2.0) && r2.0 == r.0.(models := r2.0.models) && SameModels(r.0, r2.0)
    ensures r2.1 <= r.1 + 1
  {
    var (d, n) := SetVehicleType(r.0, key, vt);
    (d, if n > 0 then r.1 + 1 else r.1)
  }

  lemma SetAllSnoc(db: Db, maker: int, year: int, vt: int, names: seq<string>, k: nat)
    requires WellFormed(db) && vt in Ids(db.vehicleTypes, VehicleTypeId) && k < |names|
    ensures SetAll(db, maker, year, vt, names[..k + 1]) == SetStep(SetAll(db, maker, year, vt, names[..k]), ModelKey(maker, names[k], year), vt)
  {
    assert names[..k + 1][..k] == names[..k];
  }

  /** After the loop, exactly the models some result names carry the vehicle type; every other row is as it was. */
  lemma {:induction false} SetAllRows(db: Db, maker: int, year: int, vt: int, names: seq<string>)
    requires WellFormed(db) && vt in Ids(db.vehicleTypes, VehicleTypeId)
    ensures var d := SetAll(db, maker, year, vt, names).0;
      forall i :: 0 <= i < |db.models| ==>
        d.models[i] == if Named(db.models[i], maker, year, names) then db.models[i].(vehicleType := Some(vt)) else db.models[i]
    decreases |names|
  {
    if names != [] {
      var init := names[..|names| - 1];
      SetAllRows(db, maker, year, vt, init);
      assert forall x :: x in names <==> x in init || x == names[|names| - 1];
    }
  }

  /** Whether a result name matches at least one model of the manufacturer and year. */
  function HasModel(models: seq<Model>, maker: int, year: int): string -> bool {
    name => Hits(models, KeyOfModel, ModelKey(maker, name, year)) != []
  }

  /** The indices of the names that pass `matched`. */
  function Matching(names: seq<string>, matched: string -> bool): set<nat> {
    set k | 0 <= k < |names| && matched(names[k])
  }

  lemma MatchingSnoc(names: seq<string>, matched: string -> bool)
    requires names != []
    ensures var last := |names| - 1;
      |Matching(names, matched)| == |Matching(names[..last], matched)| + (if matched(names[last]) then 1 else 0)
  {
    var last := |names| - 1;
    var init := names[..last];
    assert forall k :: 0 <= k < last ==> init[k] == names[k];
    assert Matching(names, matched) == Matching(init, matched) + (if matched(names[last]) then {last} else {});
    assert last !in Matching(init, matched);
  }

  /** `updated_models_count` is the number of result names that matched at least one model. */
  lemma {:induction false} SetAllCount(db: Db, maker: int, year: int, vt: int, names: seq<string>)
    requires WellFormed(db) && vt in Ids(db.vehicleTypes, VehicleTypeId)
    ensures SetAll(db, maker, year, vt, names).1 == |Matching(names, HasModel(db.models, maker, year))|
    decreases |names|
  {
    if names != [] {
      var init := names[..|names| - 1];
      var last := |names| - 1;
      SetAllCount(db, maker, year, vt, init);
      var d := SetAll(db, maker, year, vt, init).0;
      HitsSameKeys(d.models, KeyOfModel, db.models, KeyOfModel, ModelKey(maker, names[last], year));
      MatchingSnoc(names, HasModel(db.models, maker, year));
    }
  }

  /**
   * `update_vehicle_types`: on a 200 reply, get-or-create the vehicle type,
   * then set it on the models the results name; the result is the database,
   * `updated_models_count` and the error that ended it.
   */
  function BackFill(db: Db, maker: Manufacturer, year: int, typeName: string, fetch: string -> Reply): (r: (Db, nat, Option<StoreError>))
    requires WellFormed(db)
    ensures WellFormed(r.0) && r.0 == db.(vehicleTypes := r.0.vehicleTypes, models := r.0.models, nextId := r.0.nextId)
    ensures SameModels(db, r.0) && db.vehicleTypes <= r.0.vehicleTypes
    ensures r.1 <= |fetch(MakeYearTypeUrl(year, maker.name, typeName)).results|
    ensures fetch(MakeYearTypeUrl(year, maker.name, typeName)).status != StatusOk ==> r == (db, 0, None)
    ensures r.2.Some? ==> r.0.models == db.models && r.1 == 0
  {
    var reply := fetch(MakeYearTypeUrl(year, maker.name, typeName));
    if reply.status != StatusOk then (db, 0, None)
    else
      var (d1, got) := GetOrCreateVehicleType(db, typeName);
      if got.Err? then (d1, 0, Some(got.error))
      else
        assert got.value.row.id in Ids(d1.vehicleTypes, VehicleTypeId);
        var (d2, count) := SetAll(d1, maker.id, year, got.value.row.id, reply.results);
        (d2, count, None)
  }

  /**
   * What one successful back-fill does: the models named by the results carry
   * the vehicle type, no other model changes, and the count is the number of
   * result names that matched a model.
   */
  lemma BackFillEffect(db: Db, maker: Manufacturer, year: int, typeName: string, fetch: string -> Reply)
    requires WellFormed(db)
    requires fetch(MakeYearTypeUrl(year, maker.name, typeName)).status == StatusOk
    requires BackFill(db, maker, year, typeName, fetch).2.None?
    ensures var (d, count, _) := BackFill(db, maker, year, typeName, fetch);
            var results := fetch(MakeYearTypeUrl(year, maker.name, typeName)).results;
            var vt := GetOrCreateVehicleType(db, typeName).1.value.row;
            && vt.name == typeName && vt in d.vehicleTypes
            && count == |Matching(results, HasModel(db.models, maker.id, year))|
            && forall i :: 0 <= i < |db.models| ==>
                 d.models[i] == if Named(db.models[i], maker.id, year, results) then db.models[i].(vehicleType := Some(vt.id)) else db.models[i]
  {
    var results := fetch(MakeYearTypeUrl(year, maker.name, typeName)).results;
    BackFillIsSetAll(db, maker, year, typeName, fetch);
    var (d1, got) := GetOrCreateVehicleType(db, typeName);
    var vt := got.value.row;
    SetAllRows(d1, maker.id, year, vt.id, results);
    SetAllCount(d1, maker.id, year, vt.id, results);
  }

  /** A successful back-fill is the update loop run with the vehicle type that `get_or_create` returned. */
  lemma BackFillIsSetAll(db: Db, maker: Manufacturer, year: int, typeName: string, fetch: string -> Reply)
    requires WellFormed(db)
    requires fetch(MakeYearTypeUrl(year, maker.name, typeName)).status == StatusOk
    requires BackFill(db, maker, year, typeName, fetch).2.None?
    ensures var (d1, got) := GetOrCreateVehicleType(db, typeName);
            && got.Ok? && got.value.row.name == typeName && got.value.row in d1.vehicleTypes
            && got.value.row.id in Ids(d1.vehicleTypes, VehicleTypeId) && d1.models == db.models
            && var r := SetAll(d1, maker.id, year, got.value.row.id, fetch(MakeYearTypeUrl(year, maker.name, typeName)).results);
               BackFill(db, maker, year, typeName, fetch) == (r.0, r.1, None)
  {
    var (d1, got) := GetOrCreateVehicleType(db, typeName);
    assert got.value.row.id in Ids(d1.vehicleTypes, VehicleTypeId);
  }

  /** The back-fill for each type name in turn, up to the first error. */
  function BackFillEach(db: Db, maker: Manufacturer, year: int, types: seq<string>, fetch: string -> Reply): (r: (Db, Option<StoreError>))
    requires WellFormed(db)
    ensures WellFormed(r.0) && r.0 == db.(vehicleTypes := r.0.vehicleTypes, models := r.0.models, nextId := r.0.nextId)
    ensures SameModels(db, r.0) && db.vehicleTypes <= r.0.vehicleTypes
    decreases |types|
  {
    if types == [] then (db, None)
    else
      var (d1, _, e) := BackFill(db, maker, year, types[0], fetch);
      if e.Some? then (d1, e) else BackFillEach(d1, maker, year, types[1..], fetch)
  }

  /** `update_all_vehicle_types`: fetch the manufacturer's type names, then back-fill each. */
  function BackFillAll(db: Db, maker: Manufacturer, year: int, fetch: string -> Reply): (r: (Db, Option<StoreError>))
    requires WellFormed(db)
    ensures WellFormed(r.0) && r.0 == db.(vehicleTypes := r.0.vehicleTypes, models := r.0.models, nextId := r.0.nextId)
    ensures SameModels(db, r.0) && db.vehicleTypes <= r.0.vehicleTypes
  {
    var (d, types, e) := FetchVehicleTypes(db, maker.name, fetch);
    if e.Some? then (d, e) else BackFillEach(d, maker, year, types, fetch)
  }

  /** One task of `scrape_vehicle_types`: the manufacturer's back-fill, its name listed if it raised. */
  function Task(r: (Db, seq<string>), m: Manufacturer, year: int, fetch: string -> Reply): (r2: (Db, seq<string>))
    requires WellFormed(r.0)
  {
    var (d, e) := BackFillAll(r.0, m, year, fetch);
    (d, r.1 + if e.Some? then [m.name] else [])
  }

  /**
   * `scrape_vehicle_types`: the back-fill for every manufacturer of the
   * snapshot. An exception in one manufacturer's task is reported (its name
   * is listed) and the others still run.
   */
  function VehicleTypesForAll(db: Db, makers: seq<Manufacturer>, year: int, fetch: string -> Reply): (r: (Db, seq<string>))
    requires WellFormed(db)
    ensures WellFormed(r.0) && r.0 == db.(vehicleTypes := r.0.vehicleTypes, models := r.0.models, nextId := r.0.nextId)
    ensures SameModels(db, r.0) && db.vehicleTypes <= r.0.vehicleTypes
    ensures |r.1| <= |makers|
    decreases |makers|
  {
    if makers == [] then (db, [])
    else
      var before := VehicleTypesForAll(db, makers[..|makers| - 1], year, fetch);
      Task(before, makers[|makers| - 1], year, fetch)
  }

  lemma VehicleTypesSnoc(db: Db, makers: seq<Manufacturer>, k: nat, year: int, fetch: string -> Reply)
    requires WellFormed(db) && k < |makers|
    ensures VehicleTypesForAll(db, makers[..k + 1], year, fetch) == Task(VehicleTypesForAll(db, makers[..k], year, fetch), makers[k], year, fetch)
  {
    assert makers[..k + 1][..k] == makers[..k];
  }

  lemma TaskIs(r: (Db, seq<string>), m: Manufacturer, year: int, fetch: string -> Reply, after: Db, e: Option<StoreError>)
    requires WellFormed(r.0) && (after, e) == BackFillAll(r.0, m, year, fetch)
    ensures Task(r, m, year, fetch) == (after, r.1 + if e.Some? then [m.name] else [])
  {
  }

  /** A result with the names `head` listed before its own. */
  function Listed(head: seq<string>, r: (Db, seq<string>)): (Db, seq<string>) {
    (r.0, head + r.1)
  }

  lemma TaskListed(head: seq<string>, r: (Db, seq<string>), m: Manufacturer, year: int, fetch: string -> Reply)
    requires WellFormed(r.0)
    ensures Task(Listed(head, r), m, year, fetch) == Listed(head, Task(r, m, year, fetch))
  {
    var tail: seq<string> := if BackFillAll(r.0, m, year, fetch).1.Some? then [m.name] else [];
    assert head + r.1 + tail == head + (r.1 + tail);
  }

  /** A failing manufacturer does not stop the others: the pass is its first task followed by the pass over the rest. */
  lemma {:induction false} VehicleTypesIsolation(db: Db, m: Manufacturer, rest: seq<Manufacturer>, year: int, fetch: string -> Reply)
    requires WellFormed(db)
    ensures var first := Task((db, []), m, year, fetch);
            VehicleTypesForAll(db, [m] + rest, year, fetch) == Listed(first.1, VehicleTypesForAll(first.0, rest, year, fetch))
    decreases |rest|
  {
    var all := [m] + rest;
    var first := Task((db, []), m, year, fetch);
    if rest == [] {
      assert all[..0] == [];
      assert first.1 + [] == first.1;
    } else {
      var init, last := rest[..|rest| - 1], rest[|rest| - 1];
      var before := VehicleTypesForAll(first.0, init, year, fetch);
      assert all[..|all| - 1] == [m] + init && all[|all| - 1] == last;
      ForAllLast(db, all, year, fetch);
      ForAllLast(first.0, rest, year, fetch);
      VehicleTypesIsolation(db, m, init, year, fetch);
      TaskListed(first.1, before, last, year, fetch);
    }
  }

  lemma ForAllLast(db: Db, makers: seq<Manufacturer>, year: int, fetch: string -> Reply)
    requires WellFormed(db) && makers != []
    ensures VehicleTypesForAll(db, makers, year, fetch)
            == Task(VehicleTypesForAll(db, makers[..|makers| - 1], year, fetch), makers[|makers| - 1], year, fetch)
  {
  }

  // ---------------------------------------------------------------- the command on the store

  /** The loop over a reply's model names. */
  method GetOrCreateModels(db: Database.Store, maker: int, names: seq<string>, year: int) returns (created: seq<bool>, error: Option<StoreError>)
    requires db.Valid() && maker in Ids(db.manufacturers, ManufacturerId)
    modifies db
    ensures db.Valid()
    ensures (db.State(), created, error) == AddModels(old(db.State()), maker, names, year)
  {
    created := [];
    var k := 0;
    assert names[k..] == names;
    ghost var all := AddModels(db.State(), maker, names, year);
    assert [] + all.1 == all.1 && (all.0, all.1, all.2) == all;
    while k < |names|
      invariant 0 <= k <= |names| && db.Valid() && maker in Ids(db.manufacturers, ManufacturerId)
      invariant AddModels(old(db.State()), maker, names, year) == Logged(created, AddModels(db.State(), maker, names[k..], year))
      decreases |names| - k
    {
      ghost var before := db.State();
      var got := db.GetOrCreateModel(maker, names[k], year);
      AddModelsFirst(before, maker, names[k..], year, db.State(), got);
      assert names[k..][1..] == names[k + 1..];
      if got.Err? {
        assert created + [] == created;
        return created, Some(got.error);
      }
      LoggedTwice(created, [got.value.created], AddModels(db.State(), maker, names[k + 1..], year));
      created := created + [got.value.created];
      k := k + 1;
    }
    assert names[k..] == [] && created + [] == created;
    error := None;
  }

  /** `scrape_models_for_manufacturer` on the store. */
  method ScrapeModelsForManufacturer(db: Database.Store, year: int, name: string, fetch: string -> Reply) returns (created: seq<bool>, outcome: Outcome)
    requires db.Valid()
    modifies db
    ensures db.Valid()
    ensures (db.State(), created, outcome) == ModelsForManufacturer(old(db.State()), year, name, fetch)
  {
    var reply := fetch(MakeYearUrl(year, name));
    if reply.status != StatusOk {
      return [], FetchFailed;
    }
    if reply.count <= 0 {
      return [], Done;
    }
    var got := db.GetOrCreateManufacturer(name);
    if got.Err? {
      return [], Raised(got.error);
    }
    assert got.value.row.id in Ids(db.manufacturers, ManufacturerId);
    var error;
    created, error := GetOrCreateModels(db, got.value.row.id, reply.results, year);
    outcome := if error.Some? then Raised(error.value) else Done;
  }

  /** `scrape_models` on the store: every name of the snapshot taken at the start. */
  method ScrapeModels(db: Database.Store, year: int, fetch: string -> Reply) returns (error: Option<StoreError>)
    requires db.Valid()
    modifies db
    ensures db.Valid()
    ensures (db.State(), error) == ModelsForAll(old(db.State()), Names(old(db.manufacturers)), year, fetch)
  {
    var names := Names(db.manufacturers);
    error := None;
    var k := 0;
    while k < |names|
      invariant 0 <= k <= |names| && db.Valid()
      invariant (db.State(), error) == ModelsForAll(old(db.State()), names[..k], year, fetch)
      decreases |names| - k
    {
      ModelsForAllSnoc(old(db.State()), names, k, year, fetch);
      var _, outcome := ScrapeModelsForManufacturer(db, year, names[k], fetch);
      if error.None? && outcome.Raised? {
        error := Some(outcome.error);
      }
      k := k + 1;
    }
    assert names[..k] == names;
  }

  /** One iteration of the loop of `fetch_vehicle_types_for_manufacturer`. */
  method GetOrCreateVehicleTypeAt(db: Database.Store, items: seq<string>, k: nat) returns (error: Option<StoreError>)
    requires db.Valid() && k < |items|
    modifies db
    ensures db.Valid()
    ensures AddVehicleTypes(old(db.State()), items[k..])
            == if error.Some? then (db.State(), error) else AddVehicleTypes(db.State(), items[k + 1..])
  {
    assert items[k..][1..] == items[k + 1..];
    ghost var before := db.State();
    var got := db.GetOrCreateVehicleType(items[k]);
    AddVehicleTypesFirst(before, items[k..], db.State(), got);
    error := if got.Err? then Some(got.error) else None;
  }

  lemma PrefixSnoc(items: seq<string>, k: nat)
    requires k < |items|
    ensures items[..k + 1] == items[..k] + [items[k]]
  {
  }

  /** The loop of `fetch_vehicle_types_for_manufacturer`: get-or-create each name and collect it. */
  method GetOrCreateVehicleTypes(db: Database.Store, items: seq<string>) returns (types: seq<string>, error: Option<StoreError>)
    requires db.Valid()
    modifies db
    ensures db.Valid()
    ensures (db.State(), error) == AddVehicleTypes(old(db.State()), items)
    ensures error.None? ==> types == items
  {
    types := [];
    var k := 0;
    assert items[k..] == items;
    while k < |items|
      invariant 0 <= k <= |items| && db.Valid() && types == items[..k]
      invariant AddVehicleTypes(old(db.State()), items) == AddVehicleTypes(db.State(), items[k..])
      decreases |items| - k
    {
      var e := GetOrCreateVehicleTypeAt(db, items, k);
      if e.Some? {
        return types, e;
      }
      PrefixSnoc(items, k);
      types := types + [items[k]];
      k := k + 1;
    }
    assert items[..k] == items && items[k..] == [];
    error := None;
  }

  /** `fetch_vehicle_types_for_manufacturer` on the store. */
  method FetchVehicleTypesForManufacturer(db: Database.Store, make: string, fetch: string -> Reply) returns (types: seq<string>, error: Option<StoreError>)
    requires db.Valid()
    modifies db
    ensures db.Valid()
    ensures (db.State(), types, error) == FetchVehicleTypes(old(db.State()), make, fetch)
  {
    var reply := fetch(TypesUrl(make));
    if reply.status != StatusOk {
      return [], None;
    }
    types, error := GetOrCreateVehicleTypes(db, reply.results);
    if error.Some? {
      types := [];
    }
  }

  /** `update_vehicle_types` on the store: the database after the back-fill, the count, and the error that ended it. */
  method UpdateVehicleTypes(db: Database.Store, maker: Manufacturer, year: int, typeName: string, fetch: string -> Reply)
    returns (count: nat, error: Option<StoreError>)
    requires db.Valid()
    modifies db
    ensures db.Valid()
    ensures (db.State(), count, error) == BackFill(old(db.State()), maker, year, typeName, fetch)
  {
    var reply := fetch(MakeYearTypeUrl(year, maker.name, typeName));
    if reply.status != StatusOk {
      return 0, None;
    }
    var got := db.GetOrCreateVehicleType(typeName);
    if got.Err? {
      return 0, Some(got.error);
    }
    var vt := got.value.row.id;
    assert vt in Ids(db.vehicleTypes, VehicleTypeId);
    ghost var start := db.State();
    count := 0;
    var k := 0;
    while k < |reply.results|
      invariant 0 <= k <= |reply.results| && db.Valid() && db.vehicleTypes == start.vehicleTypes
      invariant (db.State(), count) == SetAll(start, maker.id, year, vt, reply.results[..k])
      decreases |reply.results| - k
    {
      SetAllSnoc(start, maker.id, year, vt, reply.results, k);
      var updated := db.SetVehicleType(ModelKey(maker.id, reply.results[k], year), vt);
      if updated > 0 {
        count := count + 1;
      }
      k := k + 1;
    }
    assert reply.results[..k] == reply.results;
    error := None;
  }

  /** `update_all_vehicle_types` on the store. */
  method UpdateAllVehicleTypes(db: Database.Store, maker: Manufacturer, year: int, fetch: string -> Reply) returns (error: Option<StoreError>)
    requires db.Valid()
    modifies db
    ensures db.Valid()
    ensures (db.State(), error) == BackFillAll(old(db.State()), maker, year, fetch)
  {
    var types;
    types, error := FetchVehicleTypesForManufacturer(db, maker.name, fetch);
    if error.Some? {
      return;
    }
    var k := 0;
    assert types[k..] == types;
    while k < |types|
      invariant 0 <= k <= |types| && db.Valid()
      invariant BackFillAll(old(db.State()), maker, year, fetch) == BackFillEach(db.State(), maker, year, types[k..], fetch)
      decreases |types| - k
    {
      assert types[k..][1..] == types[k + 1..];
      var _, e := UpdateVehicleTypes(db, maker, year, types[k], fetch);
      if e.Some? {
        return e;
      }
      k := k + 1;
    }
  }

  /** One task of `scrape_vehicle_types`: its exception is caught and the manufacturer's name listed. */
  method RunTask(db: Database.Store, m: Manufacturer, year: int, fetch: string -> Reply, failed: seq<string>) returns (failed2: seq<string>)
    requires db.Valid()
    modifies db
    ensures db.Valid()
    ensures (db.State(), failed2) == Task((old(db.State()), failed), m, year, fetch)
  {
    ghost var before := db.State();
    var e := UpdateAllVehicleTypes(db, m, year, fetch);
    TaskIs((before, failed), m, year, fetch, db.State(), e);
    if e.Some? {
      failed2 := failed + [m.name];
    } else {
      failed2 := failed;
      assert failed + [] == failed;
    }
  }

  /** `scrape_vehicle_types` on the store: every manufacturer of the snapshot, each task's exception reported and isolated. */
  method ScrapeVehicleTypes(db: Database.Store, year: int, fetch: string -> Reply) returns (failed: seq<string>)
    requires db.Valid()
    modifies db
    ensures db.Valid()
    ensures (db.State(), failed) == VehicleTypesForAll(old(db.State()), old(db.manufacturers), year, fetch)
  {
    var makers := db.manufacturers;
    failed := [];
    var k := 0;
    while k < |makers|
      invariant 0 <= k <= |makers| && db.Valid()
      invariant (db.State(), failed) == VehicleTypesForAll(old(db.State()), makers[..k], year, fetch)
      decreases |makers| - k
    {
      VehicleTypesSnoc(old(db.State()), makers, k, year, fetch);
      failed := RunTask(db, makers[k], year, fetch, failed);
      k := k + 1;
    }
    assert makers[..k] == makers;
  }
}
