/**
 * The part of Django's query API the commands use, over one table held as a
 * sequence of rows in ascending primary-key order: `filter`, `first`,
 * `get`, `get_or_create` and deletion by a condition.
 */
module Query {
  import opened Wrappers

  /** Exceptions the ORM raises on the paths the commands take. */
  datatype StoreError = DoesNotExist | MultipleObjectsReturned | IntegrityError

  /** What `get_or_create` returns: the row and whether it was inserted. */
  datatype Got<T> = Got(row: T, created: bool)

  /** Rows are in strictly ascending primary-key order. */
  ghost predicate Ascending<T>(t: seq<T>, id: T -> int) {
    forall i, j :: 0 <= i < j < |t| ==> id(t[i]) < id(t[j])
  }

  /** Every primary key is positive and below the next key to be handed out. */
  ghost predicate Numbered<T>(t: seq<T>, id: T -> int, next: int) {
    Ascending(t, id) && forall x :: x in t ==> 0 < id(x) < next
  }

  ghost function Ids<T>(t: seq<T>, id: T -> int): set<int> {
    set x | x in t :: id(x)
  }

  /** Positions, in table order, of the rows whose key is `k`. */
  function Hits<T, K(==)>(t: seq<T>, key: T -> K, k: K): (r: seq<nat>)
    ensures forall j :: j in r <==> 0 <= j < |t| && key(t[j]) == k
    ensures forall a :: 0 <= a < |r| ==> r[a] < |t| && key(t[r[a]]) == k
    ensures forall a, b :: 0 <= a < b < |r| ==> r[a] < r[b]
    ensures |r| <= |t|
  {
    if t == [] then []
    else
      var rest := Hits(t[..|t| - 1], key, k);
      if key(t[|t| - 1]) == k then rest + [|t| - 1] else rest
  }

  lemma HitsAppend<T, K>(t: seq<T>, x: T, key: T -> K, k: K)
    ensures Hits(t + [x], key, k) == Hits(t, key, k) + (if key(x) == k then [|t|] else [])
  {
    assert (t + [x])[..|t|] == t;
  }

  lemma {:induction false} HitsNone<T, K>(t: seq<T>, key: T -> K, k: K)
    requires forall j :: 0 <= j < |t| ==> key(t[j]) != k
    ensures Hits(t, key, k) == []
  {
    if t != [] {
      HitsNone(t[..|t| - 1], key, k);
    }
  }

  /** Hits depend only on the keys, position by position. */
  lemma {:induction false} HitsSameKeys<T, U, K>(t: seq<T>, key: T -> K, u: seq<U>, key2: U -> K, k: K)
    requires |t| == |u| && forall i :: 0 <= i < |t| ==> key(t[i]) == key2(u[i])
    ensures Hits(t, key, k) == Hits(u, key2, k)
  {
    if t != [] {
      HitsSameKeys(t[..|t| - 1], key, u[..|u| - 1], key2, k);
    }
  }

  /** No two rows share a key. */
  ghost predicate UniqueKeys<T, K>(t: seq<T>, key: T -> K) {
    forall i, j :: 0 <= i < j < |t| ==> key(t[i]) != key(t[j])
  }

  lemma {:induction false} UniqueKeysHits<T, K>(t: seq<T>, key: T -> K, k: K)
    requires UniqueKeys(t, key)
    ensures |Hits(t, key, k)| <= 1
  {
    if t != [] {
      var init := t[..|t| - 1];
      assert UniqueKeys(init, key);
      UniqueKeysHits(init, key, k);
      if key(t[|t| - 1]) == k {
        forall j | 0 <= j < |init| ensures key(init[j]) != k {
          assert init[j] == t[j];
        }
        HitsNone(init, key, k);
      }
    }
  }

  /**
   * Django's `get_or_create`: a single row with the key is returned, none makes
   * `newRow` the new last row, and two or more raise `MultipleObjectsReturned`.
   */
  function GetOrCreate<T, K(==)>(t: seq<T>, key: T -> K, k: K, newRow: T): (r: (seq<T>, Result<Got<T>, StoreError>))
    requires key(newRow) == k
    ensures r.1.Err? <==> |Hits(t, key, k)| >= 2
    ensures r.1.Err? ==> r.0 == t && r.1.error == MultipleObjectsReturned
    ensures r.1.Ok? ==> key(r.1.value.row) == k && r.1.value.row in r.0 && |Hits(r.0, key, k)| == 1
    ensures r.1.Ok? ==> (r.1.value.created <==> Hits(t, key, k) == [])
    ensures r.1.Ok? && r.1.value.created ==> r.0 == t + [newRow] && r.1.value.row == newRow
    ensures r.1.Ok? && !r.1.value.created ==> r.0 == t
  {
    var h := Hits(t, key, k);
    if |h| == 0 then
      HitsAppend(t, newRow, key, k);
      (t + [newRow], Ok(Got(newRow, true)))
    else if |h| == 1 then (t, Ok(Got(t[h[0]], false)))
    else (t, Err(MultipleObjectsReturned))
  }

  /** A second `get_or_create` with the same key finds the row the first one returned and changes nothing. */
  lemma GetOrCreateIdempotent<T, K>(t: seq<T>, key: T -> K, k: K, newRow: T, newRow2: T)
    requires key(newRow) == k && key(newRow2) == k
    requires GetOrCreate(t, key, k, newRow).1.Ok?
    ensures var (t1, r1) := GetOrCreate(t, key, k, newRow);
            GetOrCreate(t1, key, k, newRow2) == (t1, Ok(Got(r1.value.row, false)))
  {
    var (t1, r1) := GetOrCreate(t, key, k, newRow);
    var h1 := Hits(t1, key, k);
    assert t1[h1[0]] == r1.value.row by {
      var i :| 0 <= i < |t1| && t1[i] == r1.value.row;
      assert i in h1;
    }
  }

  /** A successful `get_or_create` never disturbs a key that had exactly one row. */
  lemma GetOrCreateKeepsSingle<T, K>(t: seq<T>, key: T -> K, k: K, newRow: T, other: K)
    requires key(newRow) == k
    requires |Hits(t, key, other)| == 1
    ensures var t1 := GetOrCreate(t, key, k, newRow).0;
            |Hits(t1, key, other)| == 1 && t1[Hits(t1, key, other)[0]] == t[Hits(t, key, other)[0]]
  {
    var (t1, r1) := GetOrCreate(t, key, k, newRow);
    if t1 != t {
      HitsAppend(t, newRow, key, other);
      assert key(newRow) != other;
    }
  }

  /** Django's `get`: exactly one row with the key, or `DoesNotExist` / `MultipleObjectsReturned`. */
  function Get<T, K(==)>(t: seq<T>, key: T -> K, k: K): (r: Result<T, StoreError>)
    ensures r.Ok? <==> |Hits(t, key, k)| == 1
    ensures r.Ok? ==> r.value in t && key(r.value) == k
    ensures r.Err? ==> (r.error == DoesNotExist <==> Hits(t, key, k) == [])
    ensures r.Err? ==> r.error != IntegrityError
  {
    var h := Hits(t, key, k);
    if |h| == 0 then Err(DoesNotExist)
    else if |h| == 1 then Ok(t[h[0]])
    else Err(MultipleObjectsReturned)
  }

  /** Position of the first row satisfying `p`: `filter(...).first()` on a table in key order. */
  function FirstWhere<T>(t: seq<T>, p: T -> bool): (r: Option<nat>)
    ensures r.Some? ==> r.value < |t| && p(t[r.value]) && forall j :: 0 <= j < r.value ==> !p(t[j])
    ensures r.None? ==> forall j :: 0 <= j < |t| ==> !p(t[j])
  {
    if t == [] then None
    else if p(t[0]) then Some(0)
    else match FirstWhere(t[1..], p)
      case None => None
      case Some(i) => Some(i + 1)
  }

  /** The rows satisfying `keep`, in table order: what is left after deleting the others. */
  function Filter<T(!new)>(t: seq<T>, keep: T -> bool): (r: seq<T>)
    ensures |r| <= |t|
    ensures forall x :: x in r <==> x in t && keep(x)
  {
    if t == [] then []
    else Filter(t[..|t| - 1], keep) + (if keep(t[|t| - 1]) then [t[|t| - 1]] else [])
  }

  lemma {:induction false} FilterAscending<T(!new)>(t: seq<T>, keep: T -> bool, id: T -> int)
    requires Ascending(t, id)
    ensures Ascending(Filter(t, keep), id)
  {
    if t != [] {
      var init := t[..|t| - 1];
      FilterAscending(init, keep, id);
      var f := Filter(init, keep);
      forall x | x in f ensures id(x) < id(t[|t| - 1]) {
        var i :| 0 <= i < |init| && init[i] == x;
      }
    }
  }

  lemma FilterNumbered<T(!new)>(t: seq<T>, keep: T -> bool, id: T -> int, next: int)
    requires Numbered(t, id, next)
    ensures Numbered(Filter(t, keep), id, next)
  {
    FilterAscending(t, keep, id);
  }

  /** In a table with ascending keys, a row is determined by its key. */
  lemma AscendingIdsUnique<T>(t: seq<T>, id: T -> int, x: T, y: T)
    requires Ascending(t, id) && x in t && y in t && id(x) == id(y)
    ensures x == y
  {
    var i :| 0 <= i < |t| && t[i] == x;
    var j :| 0 <= j < |t| && t[j] == y;
    assert !(i < j) && !(j < i);
  }

  /** Appending a row with a new, larger key keeps the numbering. */
  lemma NumberedAppend<T>(t: seq<T>, id: T -> int, next: int, x: T)
    requires Numbered(t, id, next) && id(x) == next && next > 0
    ensures Numbered(t + [x], id, next + 1)
  {
    forall i, j | 0 <= i < j < |t + [x]| ensures id((t + [x])[i]) < id((t + [x])[j]) {
      if j == |t| {
        assert t[i] in t;
      }
    }
  }

  /** On a table in key order, the first row satisfying `p` has the lowest key among those rows. */
  lemma FirstIsLowest<T>(t: seq<T>, p: T -> bool, id: T -> int)
    requires Ascending(t, id) && FirstWhere(t, p).Some?
    ensures forall x :: x in t && p(x) ==> id(t[FirstWhere(t, p).value]) <= id(x)
  {
    var j := FirstWhere(t, p).value;
    forall x | x in t && p(x) ensures id(t[j]) <= id(x) {
      var i :| 0 <= i < |t| && t[i] == x;
      assert j <= i;
    }
  }

  /** When a key has one row, any row with that key is that row. */
  lemma SingleHitRow<T, K>(t: seq<T>, key: T -> K, k: K, x: T)
    requires |Hits(t, key, k)| == 1 && x in t && key(x) == k
    ensures t[Hits(t, key, k)[0]] == x
  {
    var i :| 0 <= i < |t| && t[i] == x;
    assert i in Hits(t, key, k);
  }
}
