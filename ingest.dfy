/**
 * The manufacturer menu pass shared by the FuelEconomy.gov commands: one
 * Manufacturer `get_or_create` per menu value, in response order, stopping at
 * the first exception the ORM raises.
 */
module Ingest {
  import opened Wrappers
  import opened Query
  import opened CarModels
  import opened Catalog
  import Database

  /** Only the manufacturer table and the key counter may differ. */
  ghost predicate OnlyManufacturers(a: Db, b: Db) {
    b == a.(manufacturers := b.manufacturers, nextId := b.nextId)
  }

  /**
   * The database after `get_or_create(name=...)` for each name in turn, the
   * `created` flag of each call that returned, and the error that ended the
   * pass early, if any.
   */
  function AddManufacturers(db: Db, names: seq<string>): (r: (Db, seq<bool>, Option<StoreError>))
    requires WellFormed(db)
    ensures WellFormed(r.0) && OnlyManufacturers(db, r.0)
    ensures |r.1| <= |names| && (r.2.None? ==> |r.1| == |names|)
    ensures r.2.Some? ==> r.2.value == MultipleObjectsReturned
    ensures |db.manufacturers| <= |r.0.manufacturers| <= |db.manufacturers| + |names|
    decreases |names|
  {
    if names == [] then (db, [], None)
    else
      var (d1, res) := GetOrCreateManufacturer(db, names[0]);
      if res.Err? then (d1, [], Some(res.error))
      else
        var (d2, flags, e) := AddManufacturers(d1, names[1..]);
        (d2, [res.value.created] + flags, e)
  }

  /** A pass result with `earlier` flags put in front of its own. */
  function Logged(earlier: seq<bool>, r: (Db, seq<bool>, Option<StoreError>)): (Db, seq<bool>, Option<StoreError>) {
    (r.0, earlier + r.1, r.2)
  }

  /** The pass is its first `get_or_create` followed by the pass over the remaining names. */
  lemma AddManufacturersFirst(db: Db, names: seq<string>, after: Db, got: Result<Got<Manufacturer>, StoreError>)
    requires WellFormed(db) && names != [] && (after, got) == GetOrCreateManufacturer(db, names[0])
    ensures AddManufacturers(db, names)
            == if got.Err? then (after, [], Some(got.error)) else Logged([got.value.created], AddManufacturers(after, names[1..]))
  {
  }

  lemma LoggedTwice(a: seq<bool>, b: seq<bool>, r: (Db, seq<bool>, Option<StoreError>))
    ensures Logged(a, Logged(b, r)) == Logged(a + b, r)
  {
    assert a + (b + r.1) == (a + b) + r.1;
  }

  /** One successful step leaves the rows of every other name as they were. */
  lemma OtherNameUntouched(db: Db, x: string, y: string)
    requires WellFormed(db) && x != y && GetOrCreateManufacturer(db, x).1.Ok?
    ensures Hits(GetOrCreateManufacturer(db, x).0.manufacturers, ManufacturerName, y) == Hits(db.manufacturers, ManufacturerName, y)
  {
    var (d1, res) := GetOrCreateManufacturer(db, x);
    if res.value.created {
      HitsAppend(db.manufacturers, Manufacturer(db.nextId, x, "", None, None), ManufacturerName, y);
    }
  }

  /** After a pass that raised nothing, every name has exactly one row. */
  lemma {:induction false} AddManufacturersAllSingle(db: Db, names: seq<string>)
    requires WellFormed(db) && AddManufacturers(db, names).2.None?
    ensures forall x :: x in names ==> |Hits(AddManufacturers(db, names).0.manufacturers, ManufacturerName, x)| == 1
    decreases |names|
  {
    if names != [] {
      var (d1, res) := GetOrCreateManufacturer(db, names[0]);
      AddManufacturersAllSingle(d1, names[1..]);
      forall x | x in names
        ensures |Hits(AddManufacturers(db, names).0.manufacturers, ManufacturerName, x)| == 1
      {
        if x !in names[1..] {
          assert x == names[0];
          KeepsSingleThroughPass(d1, names[1..], x);
        }
      }
    }
  }

  /** A name with exactly one row keeps it through any pass. */
  lemma {:induction false} KeepsSingleThroughPass(db: Db, names: seq<string>, x: string)
    requires WellFormed(db) && |Hits(db.manufacturers, ManufacturerName, x)| == 1
    ensures |Hits(AddManufacturers(db, names).0.manufacturers, ManufacturerName, x)| == 1
    decreases |names|
  {
    if names != [] {
      var (d1, res) := GetOrCreateManufacturer(db, names[0]);
      GetOrCreateKeepsSingle(db.manufacturers, ManufacturerName, names[0], Manufacturer(db.nextId, names[0], "", None, None), x);
      if res.Ok? {
        KeepsSingleThroughPass(d1, names[1..], x);
      }
    }
  }

  /**
   * `created` is reported exactly for the first occurrence of a name that had
   * no row before the pass.
   */
  lemma {:induction false} CreatedOnFirstSighting(db: Db, names: seq<string>)
    requires WellFormed(db) && AddManufacturers(db, names).2.None?
    ensures forall k :: 0 <= k < |names| ==>
              (AddManufacturers(db, names).1[k] <==> names[k] !in names[..k] && Hits(db.manufacturers, ManufacturerName, names[k]) == [])
  {
    SightedAll(db, names);
    var flags := AddManufacturers(db, names).1;
    forall k | 0 <= k < |names|
      ensures flags[k] <==> names[k] !in names[..k] && Hits(db.manufacturers, ManufacturerName, names[k]) == []
    {
      assert Sighted(db, names, flags, k);
    }
  }

  /** Flag `k` is set exactly when `names[k]` is new to `db` and to the names before it. */
  ghost predicate Sighted(db: Db, names: seq<string>, flags: seq<bool>, k: nat)
    requires k < |names| && k < |flags|
  {
    flags[k] <==> names[k] !in names[..k] && Hits(db.manufacturers, ManufacturerName, names[k]) == []
  }

  /** `CreatedOnFirstSighting` by induction on the names, stated through `Sighted`. */
  lemma {:induction false} SightedAll(db: Db, names: seq<string>)
    requires WellFormed(db) && AddManufacturers(db, names).2.None?
    ensures forall k :: 0 <= k < |names| ==> Sighted(db, names, AddManufacturers(db, names).1, k)
    decreases |names|
  {
    if names != [] {
      var (d1, res) := GetOrCreateManufacturer(db, names[0]);
      AddManufacturersFirst(db, names, d1, res);
      var rest := AddManufacturers(d1, names[1..]).1;
      SightedAll(d1, names[1..]);
      forall k | 0 <= k < |names|
        ensures Sighted(db, names, [res.value.created] + rest, k)
      {
        if k == 0 {
          assert names[..0] == [];
        } else {
          FlagAfterFirst(db, names, k, rest);
        }
      }
    }
  }

  /** The inductive step of `SightedAll` for a position after the first. */
  lemma FlagAfterFirst(db: Db, names: seq<string>, k: nat, rest: seq<bool>)
    requires WellFormed(db) && 0 < k < |names| && GetOrCreateManufacturer(db, names[0]).1.Ok?
    requires |rest| == |names| - 1
    requires Sighted(GetOrCreateManufacturer(db, names[0]).0, names[1..], rest, k - 1)
    ensures Sighted(db, names, [GetOrCreateManufacturer(db, names[0]).1.value.created] + rest, k)
  {
    var (d1, res) := GetOrCreateManufacturer(db, names[0]);
    var tail := names[1..];
    assert tail[k - 1] == names[k] && ([res.value.created] + rest)[k] == rest[k - 1];
    assert names[..k] == [names[0]] + tail[..k - 1];
    if names[k] == names[0] {
      assert |Hits(d1.manufacturers, ManufacturerName, names[k])| == 1;
    } else {
      OtherNameUntouched(db, names[0], names[k]);
    }
  }

  /** When every name already has one row, the pass creates nothing and changes nothing. */
  lemma {:induction false} AllPresentNoChange(db: Db, names: seq<string>)
    requires WellFormed(db)
    requires forall x :: x in names ==> |Hits(db.manufacturers, ManufacturerName, x)| == 1
    ensures AddManufacturers(db, names) == (db, seq(|names|, _ => false), None)
    decreases |names|
  {
    if names != [] {
      var (d1, res) := GetOrCreateManufacturer(db, names[0]);
      FoundUnchanged(db, names[0]);
      AddManufacturersFirst(db, names, d1, res);
      AllPresentNoChange(db, names[1..]);
      NoFlagsCons(|names|);
    } else {
      assert seq(0, _ => false) == [];
    }
  }

  /** A name that already has one row is found: nothing changes and nothing is created. */
  lemma FoundUnchanged(db: Db, name: string)
    requires WellFormed(db) && |Hits(db.manufacturers, ManufacturerName, name)| == 1
    ensures GetOrCreateManufacturer(db, name).0 == db
    ensures GetOrCreateManufacturer(db, name).1.Ok? && !GetOrCreateManufacturer(db, name).1.value.created
  {
  }

  lemma NoFlagsCons(n: nat)
    requires n > 0
    ensures [false] + seq(n - 1, _ => false) == seq(n, _ => false)
  {
  }

  /** Running the pass again over the same menu changes nothing and reports every name as existing. */
  lemma AddManufacturersRerun(db: Db, names: seq<string>)
    requires WellFormed(db) && AddManufacturers(db, names).2.None?
    ensures var d := AddManufacturers(db, names).0;
            AddManufacturers(d, names) == (d, seq(|names|, _ => false), None)
  {
    AddManufacturersAllSingle(db, names);
    AllPresentNoChange(AddManufacturers(db, names).0, names);
  }

  /** The menu loop on the database: the `created` flag of each call, or the exception that ended it. */
  method GetOrCreateManufacturers(db: Database.Store, names: seq<string>) returns (created: seq<bool>, error: Option<StoreError>)
    requires db.Valid()
    modifies db
    ensures db.Valid()
    ensures (db.State(), created, error) == AddManufacturers(old(db.State()), names)
  {
    created := [];
    var k := 0;
    assert names[k..] == names;
    ghost var all := AddManufacturers(db.State(), names);
    assert [] + all.1 == all.1 && (all.0, all.1, all.2) == all;
    while k < |names|
      invariant 0 <= k <= |names| && db.Valid()
      invariant AddManufacturers(old(db.State()), names) == Logged(created, AddManufacturers(db.State(), names[k..]))
      decreases |names| - k
    {
      ghost var before := db.State();
      var got := db.GetOrCreateManufacturer(names[k]);
      AddManufacturersFirst(before, names[k..], db.State(), got);
      assert names[k..][1..] == names[k + 1..];
      if got.Err? {
        assert created + [] == created;
        return created, Some(got.error);
      }
      LoggedTwice(created, [got.value.created], AddManufacturers(db.State(), names[k + 1..]));
      created := created + [got.value.created];
      k := k + 1;
    }
    assert names[k..] == [] && created + [] == created;
    error := None;
  }
}
