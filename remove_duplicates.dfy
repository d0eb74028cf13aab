/**
 * The duplicate-removal command: Models are grouped by (manufacturer, name,
 * year); in every group with more than one row all rows but the first are
 * deleted, with the usual cascade. The group's query has no ordering; this
 * model takes the rows in id order, so the first row is the one with the
 * lowest key.
 */
module RemoveDuplicates {
  import opened Wrappers
  import opened Query
  import opened CarModels
  import Catalog
  import opened Database

  /** The row has the lowest key among the rows sharing its (manufacturer, name, year). */
  ghost predicate FirstOfKey(models: seq<Model>, m: Model) {
    forall x :: x in models && KeyOfModel(x) == KeyOfModel(m) ==> m.id <= x.id
  }

  ghost predicate Distinct<T>(s: seq<T>) {
    forall i, j :: 0 <= i < j < |s| ==> s[i] != s[j]
  }

  /** The duplicate groups: the keys shared by two or more rows, each once. */
  function DuplicateKeys(models: seq<Model>): (r: seq<ModelKey>)
    ensures forall k :: k in r <==> |Hits(models, KeyOfModel, k)| >= 2
    ensures Distinct(r)
  {
    if models == [] then []
    else
      var init := models[..|models| - 1];
      var last := models[|models| - 1];
      var earlier := DuplicateKeys(init);
      assert models == init + [last];
      DuplicateKeysStep(init, last, earlier);
      earlier + (if |Hits(init, KeyOfModel, KeyOfModel(last))| == 1 then [KeyOfModel(last)] else [])
  }

  /** Appending a row adds its key to the duplicate groups exactly when it is the key's second row. */
  lemma DuplicateKeysStep(init: seq<Model>, last: Model, earlier: seq<ModelKey>)
    requires forall k :: k in earlier <==> |Hits(init, KeyOfModel, k)| >= 2
    requires Distinct(earlier)
    ensures var r := earlier + (if |Hits(init, KeyOfModel, KeyOfModel(last))| == 1 then [KeyOfModel(last)] else []);
      (forall k :: k in r <==> |Hits(init + [last], KeyOfModel, k)| >= 2) && Distinct(r)
  {
    forall k ensures Hits(init + [last], KeyOfModel, k) == Hits(init, KeyOfModel, k) + (if KeyOfModel(last) == k then [|init|] else []) {
      HitsAppend(init, last, KeyOfModel, k);
    }
  }

  /** Keys of the rows of group `k` after the first: `values_list("id")[1:]`. */
  function LaterIds(models: seq<Model>, k: ModelKey): set<int> {
    var h := Hits(models, KeyOfModel, k);
    if |h| == 0 then {} else set j | j in h[1..] :: models[j].id
  }

  /** In a table in key order, the rows picked for deletion in a group are exactly its rows that are not first. */
  lemma LaterIdsAreNotFirst(models: seq<Model>, k: ModelKey)
    requires Ascending(models, ModelId)
    ensures forall m :: m in models ==> (m.id in LaterIds(models, k) <==> KeyOfModel(m) == k && !FirstOfKey(models, m))
  {
    forall m | m in models ensures m.id in LaterIds(models, k) <==> KeyOfModel(m) == k && !FirstOfKey(models, m) {
      if m.id in LaterIds(models, k) {
        LaterIsNotFirst(models, k, m);
      }
      if KeyOfModel(m) == k && !FirstOfKey(models, m) {
        NotFirstIsLater(models, k, m);
      }
    }
  }

  lemma LaterIsNotFirst(models: seq<Model>, k: ModelKey, m: Model)
    requires Ascending(models, ModelId) && m in models && m.id in LaterIds(models, k)
    ensures KeyOfModel(m) == k && !FirstOfKey(models, m)
  {
    var h := Hits(models, KeyOfModel, k);
    var i :| 0 <= i < |models| && models[i] == m;
    var j :| j in h[1..] && models[j].id == m.id;
    assert i == j;
    var p :| 1 <= p < |h| && h[p] == j;
    assert h[0] < j && models[h[0]].id < m.id;
    assert models[h[0]] in models;
  }

  lemma NotFirstIsLater(models: seq<Model>, k: ModelKey, m: Model)
    requires Ascending(models, ModelId) && m in models && KeyOfModel(m) == k && !FirstOfKey(models, m)
    ensures m.id in LaterIds(models, k)
  {
    var h := Hits(models, KeyOfModel, k);
    var i :| 0 <= i < |models| && models[i] == m;
    var x :| x in models && KeyOfModel(x) == k && x.id < m.id;
    var a :| 0 <= a < |models| && models[a] == x;
    AscendingOrder(models, ModelId, a, i);
    assert i in h && a in h;
    var p :| 0 <= p < |h| && h[p] == i;
    var q :| 0 <= q < |h| && h[q] == a;
    IncreasingOrder(h, q, p);
    assert i in h[1..] by {
      assert h[1..][p - 1] == i;
    }
    assert models[i].id == m.id;
  }

  /** In a table in key order, a row with a smaller key sits at a smaller position. */
  lemma AscendingOrder<T>(t: seq<T>, id: T -> int, q: int, p: int)
    requires Ascending(t, id)
    requires 0 <= q < |t| && 0 <= p < |t| && id(t[q]) < id(t[p])
    ensures q < p
  {
  }

  /** In a strictly increasing sequence, a smaller element sits at a smaller position. */
  lemma IncreasingOrder(h: seq<nat>, q: int, p: int)
    requires forall a, b :: 0 <= a < b < |h| ==> h[a] < h[b]
    requires 0 <= q < |h| && 0 <= p < |h| && h[q] < h[p]
    ensures q < p
  {
  }

  /** One duplicate group: delete its later rows. */
  function DropGroup(db: Catalog.Db, k: ModelKey): (r: Catalog.Db)
    requires Catalog.WellFormed(db)
    ensures Catalog.WellFormed(r)
  {
    Catalog.DeleteModels(db, LaterIds(db.models, k))
  }

  /** The groups in order. */
  function DropGroups(db: Catalog.Db, groups: seq<ModelKey>): (r: Catalog.Db)
    requires Catalog.WellFormed(db)
    ensures Catalog.WellFormed(r)
    ensures r.manufacturers == db.manufacturers && r.vehicleTypes == db.vehicleTypes && r.nextId == db.nextId
    ensures forall m :: m in r.models ==> m in db.models
    decreases |groups|
  {
    if groups == [] then db else DropGroups(DropGroup(db, groups[0]), groups[1..])
  }

  /**
   * While the rows of the groups still to do are those of the original table
   * `orig`, each of those groups loses exactly its rows that were not first in `orig`.
   */
  lemma {:induction false} DropGroupsMembers(orig: seq<Model>, db: Catalog.Db, groups: seq<ModelKey>)
    requires Catalog.WellFormed(db) && Distinct(groups)
    requires forall m :: KeyOfModel(m) in groups ==> (m in db.models <==> m in orig)
    ensures forall m :: m in DropGroups(db, groups).models <==>
              m in db.models && (KeyOfModel(m) in groups ==> FirstOfKey(orig, m))
    decreases |groups|
  {
    if groups != [] {
      var d1 := DropGroup(db, groups[0]);
      DropGroupMembers(orig, db, groups[0]);
      LaterGroupsUntouched(orig, db.models, d1.models, groups);
      DropGroupsMembers(orig, d1, groups[1..]);
      var rest := DropGroups(d1, groups[1..]);
      GroupsCombine(orig, db.models, d1.models, rest.models, groups);
    }
  }

  /** Dropping the first group leaves the rows of the later (distinct) groups as they were. */
  lemma LaterGroupsUntouched(orig: seq<Model>, before: seq<Model>, after: seq<Model>, groups: seq<ModelKey>)
    requires groups != [] && Distinct(groups)
    requires forall m :: KeyOfModel(m) in groups ==> (m in before <==> m in orig)
    requires forall m :: m in after <==> m in before && (KeyOfModel(m) == groups[0] ==> FirstOfKey(orig, m))
    ensures forall m :: KeyOfModel(m) in groups[1..] ==> (m in after <==> m in orig)
  {
    forall m | KeyOfModel(m) in groups[1..] ensures m in after <==> m in orig {
      assert KeyOfModel(m) != groups[0] by {
        var j :| 0 <= j < |groups[1..]| && groups[1..][j] == KeyOfModel(m);
        assert groups[j + 1] != groups[0];
      }
    }
  }

  /** The first group's pass followed by the later groups' passes is the pass of all groups. */
  lemma GroupsCombine(orig: seq<Model>, before: seq<Model>, mid: seq<Model>, after: seq<Model>, groups: seq<ModelKey>)
    requires groups != []
    requires forall m :: m in mid <==> m in before && (KeyOfModel(m) == groups[0] ==> FirstOfKey(orig, m))
    requires forall m :: m in after <==> m in mid && (KeyOfModel(m) in groups[1..] ==> FirstOfKey(orig, m))
    ensures forall m :: m in after <==> m in before && (KeyOfModel(m) in groups ==> FirstOfKey(orig, m))
  {
    forall k ensures k in groups <==> k == groups[0] || k in groups[1..] {
      assert groups == [groups[0]] + groups[1..];
    }
  }

  /** One group loses its rows that were not first in `orig`; other keys keep all their rows. */
  lemma DropGroupMembers(orig: seq<Model>, db: Catalog.Db, g: ModelKey)
    requires Catalog.WellFormed(db)
    requires forall m :: KeyOfModel(m) == g ==> (m in db.models <==> m in orig)
    ensures forall m :: m in DropGroup(db, g).models <==> m in db.models && (KeyOfModel(m) == g ==> FirstOfKey(orig, m))
  {
    LaterIdsAreNotFirst(db.models, g);
    forall m | m in db.models && KeyOfModel(m) == g ensures FirstOfKey(db.models, m) <==> FirstOfKey(orig, m) {
    }
  }

  /** The command: every duplicate group of the table as it was when the pass started. */
  function RemoveDuplicates(db: Catalog.Db): (r: Catalog.Db)
    requires Catalog.WellFormed(db)
    ensures Catalog.WellFormed(r)
    ensures r.manufacturers == db.manufacturers && r.vehicleTypes == db.vehicleTypes
    ensures forall m :: m in r.models <==> m in db.models && FirstOfKey(db.models, m)
    ensures UniqueKeys(r.models, KeyOfModel)
  {
    var groups := DuplicateKeys(db.models);
    DropGroupsMembers(db.models, db, groups);
    var r := DropGroups(db, groups);
    forall m | m in db.models && KeyOfModel(m) !in groups ensures FirstOfKey(db.models, m) {
      UniqueRowIsFirst(db.models, m);
    }
    forall i, j | 0 <= i < j < |r.models| ensures KeyOfModel(r.models[i]) != KeyOfModel(r.models[j]) {
      assert r.models[i] in r.models && r.models[j] in r.models;
      assert r.models[i].id < r.models[j].id;
    }
    r
  }

  /** A row whose key has fewer than two rows is trivially the first of its key. */
  lemma UniqueRowIsFirst(models: seq<Model>, m: Model)
    requires m in models && |Hits(models, KeyOfModel, KeyOfModel(m))| < 2
    ensures FirstOfKey(models, m)
  {
    var h := Hits(models, KeyOfModel, KeyOfModel(m));
    forall x | x in models && KeyOfModel(x) == KeyOfModel(m) ensures m.id <= x.id {
      var i :| 0 <= i < |models| && models[i] == m;
      var j :| 0 <= j < |models| && models[j] == x;
      assert i in h && j in h;
      assert |h| == 1 && h[0] == i && h[0] == j;
    }
  }

  ghost function KeySet(models: seq<Model>): set<ModelKey> {
    set m | m in models :: KeyOfModel(m)
  }

  /** The row at the first position of a key is the first of its key. */
  lemma FirstHitIsFirst(models: seq<Model>, k: ModelKey)
    requires Ascending(models, ModelId) && |Hits(models, KeyOfModel, k)| > 0
    ensures FirstOfKey(models, models[Hits(models, KeyOfModel, k)[0]])
  {
    var h := Hits(models, KeyOfModel, k);
    forall x | x in models && KeyOfModel(x) == k ensures models[h[0]].id <= x.id {
      var j :| 0 <= j < |models| && models[j] == x;
      assert j in h;
      var p :| 0 <= p < |h| && h[p] == j;
      assert h[0] <= j;
    }
  }

  /** Every (manufacturer, name, year) of the table keeps exactly one row. */
  lemma GroupsKeepOne(db: Catalog.Db)
    requires Catalog.WellFormed(db)
    ensures KeySet(RemoveDuplicates(db).models) == KeySet(db.models)
    ensures forall k :: k in KeySet(db.models) ==> |Hits(RemoveDuplicates(db).models, KeyOfModel, k)| == 1
  {
    var r := RemoveDuplicates(db);
    forall k | k in KeySet(db.models) ensures k in KeySet(r.models) {
      KeyKept(db, r, k);
    }
    forall k | k in KeySet(db.models) ensures |Hits(r.models, KeyOfModel, k)| == 1 {
      KeyKept(db, r, k);
      OneHit(r.models, k);
    }
  }

  lemma OneHit(models: seq<Model>, k: ModelKey)
    requires UniqueKeys(models, KeyOfModel) && k in KeySet(models)
    ensures |Hits(models, KeyOfModel, k)| == 1
  {
    UniqueKeysHits(models, KeyOfModel, k);
    var m :| m in models && KeyOfModel(m) == k;
    var i :| 0 <= i < |models| && models[i] == m;
    assert i in Hits(models, KeyOfModel, k);
  }

  lemma KeyKept(db: Catalog.Db, r: Catalog.Db, k: ModelKey)
    requires Catalog.WellFormed(db) && r == RemoveDuplicates(db) && k in KeySet(db.models)
    ensures k in KeySet(r.models)
  {
    var m :| m in db.models && KeyOfModel(m) == k;
    var i :| 0 <= i < |db.models| && db.models[i] == m;
    var h := Hits(db.models, KeyOfModel, k);
    assert i in h;
    FirstHitIsFirst(db.models, k);
    var x := db.models[h[0]];
    assert x in db.models && KeyOfModel(x) == k;
    assert x in r.models;
  }

  lemma {:induction false} UniqueKeysCount(models: seq<Model>)
    requires UniqueKeys(models, KeyOfModel)
    ensures |KeySet(models)| == |models|
  {
    if models != [] {
      var init := models[..|models| - 1];
      var last := models[|models| - 1];
      assert UniqueKeys(init, KeyOfModel);
      UniqueKeysCount(init);
      var ks := KeySet(init);
      assert KeySet(models) == ks + {KeyOfModel(last)} by {
        assert models == init + [last];
        KeySetSnoc(init, last);
      }
      assert KeyOfModel(last) !in ks by {
        forall j | 0 <= j < |init| ensures KeyOfModel(init[j]) != KeyOfModel(last) {
          assert init[j] == models[j];
        }
      }
    }
  }

  lemma KeySetSnoc(init: seq<Model>, last: Model)
    ensures KeySet(init + [last]) == KeySet(init) + {KeyOfModel(last)}
  {
    forall m | m in init + [last] ensures m in init || m == last {
    }
  }

  /**
   * The number of rows deleted is the number of rows minus the number of
   * distinct (manufacturer, name, year) keys: each group gives up all but one row.
   */
  lemma DeletedCount(db: Catalog.Db)
    requires Catalog.WellFormed(db)
    ensures |db.models| - |RemoveDuplicates(db).models| == |db.models| - |KeySet(db.models)|
  {
    GroupsKeepOne(db);
    UniqueKeysCount(RemoveDuplicates(db).models);
  }

  /** A second pass finds no duplicate group and deletes nothing. */
  lemma RemoveDuplicatesRerun(db: Catalog.Db)
    requires Catalog.WellFormed(db)
    ensures RemoveDuplicates(RemoveDuplicates(db)) == RemoveDuplicates(db)
  {
    var r := RemoveDuplicates(db);
    forall k ensures |Hits(r.models, KeyOfModel, k)| < 2 {
      UniqueKeysHits(r.models, KeyOfModel, k);
    }
  }

  method Handle(db: Store)
    requires db.Valid()
    modifies db
    ensures db.Valid()
    ensures db.State() == RemoveDuplicates(old(db.State()))
  {
    var groups := DuplicateKeys(db.models);
    var k := 0;
    assert groups[k..] == groups;
    while k < |groups|
      invariant 0 <= k <= |groups| && db.Valid()
      invariant DropGroups(old(db.State()), groups) == DropGroups(db.State(), groups[k..])
      decreases |groups| - k
    {
      assert groups[k..][1..] == groups[k + 1..];
      var gone := LaterIds(db.models, groups[k]);
      db.DeleteModels(gone);
      k := k + 1;
    }
    assert groups[k..] == [];
  }
}
