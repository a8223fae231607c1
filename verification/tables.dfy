/** A relational table with a database-generated identity key, as the JPA
    repositories of the leave service see it: rows in the order `findAll`
    yields them, and the next value of the identity column. */
module Tables {
  import opened Common

  datatype Row<T> = Row(id: int, val: T)

  datatype Table<T> = Table(rows: seq<Row<T>>, nextId: int)

  /** An empty table whose identity column starts at 1. */
  function Empty<T>(): Table<T> {
    Table([], 1)
  }

  /** Identity keys are positive, below the next key, and unique. */
  ghost predicate Valid<T>(t: Table<T>) {
    && t.nextId >= 1
    && (forall i :: 0 <= i < |t.rows| ==> 1 <= t.rows[i].id < t.nextId)
    && UniqueIds(t.rows)
  }

  ghost predicate UniqueIds<T>(rows: seq<Row<T>>) {
    forall i, j :: 0 <= i < j < |rows| ==> rows[i].id != rows[j].id
  }

  /** The key set of the table. */
  ghost predicate HasId<T>(t: Table<T>, id: int) {
    exists i :: 0 <= i < |t.rows| && t.rows[i].id == id
  }

  /** `findById`: the row stored under `id`, if any. */
  function FindIn<T(==)>(rows: seq<Row<T>>, id: int): (r: Option<T>)
    ensures r.Some? <==> exists i :: 0 <= i < |rows| && rows[i].id == id
    ensures r.Some? ==> Row(id, r.value) in rows
    ensures r.Some? ==> exists i :: 0 <= i < |rows| && rows[i] == Row(id, r.value)
                                 && forall j :: 0 <= j < i ==> rows[j].id != id
  {
    if |rows| == 0 then None
    else if rows[0].id == id then Some(rows[0].val)
    else
      var r := FindIn(rows[1..], id);
      if r.Some? then
        var i :| 0 <= i < |rows[1..]| && rows[1..][i] == Row(id, r.value)
                 && forall j :: 0 <= j < i ==> rows[1..][j].id != id;
        assert rows[i + 1] == Row(id, r.value);
        r
      else
        r
  }

  function Find<T(==)>(t: Table<T>, id: int): (r: Option<T>)
    ensures r.Some? <==> HasId(t, id)
  {
    FindIn(t.rows, id)
  }

  /** In a valid table the row at position `i` is what `Find` returns for its key. */
  lemma FindAt<T>(t: Table<T>, i: int)
    requires Valid(t) && 0 <= i < |t.rows|
    ensures Find(t, t.rows[i].id) == Some(t.rows[i].val)
  {
    var r := FindIn(t.rows, t.rows[i].id);
    var k :| 0 <= k < |t.rows| && t.rows[k] == Row(t.rows[i].id, r.value)
             && forall j :: 0 <= j < k ==> t.rows[j].id != t.rows[i].id;
    assert k == i;
  }

  /** `save` of a new entity: the identity column assigns `nextId`. */
  function Insert<T(==)>(t: Table<T>, v: T): (r: Table<T>)
    ensures Valid(t) ==> Valid(r)
    ensures Valid(t) ==> Find(r, t.nextId) == Some(v) && !HasId(t, t.nextId)
    ensures forall k :: k != t.nextId ==> Find(r, k) == Find(t, k)
    ensures |r.rows| == |t.rows| + 1 && r.rows[..|t.rows|] == t.rows
  {
    var r := Table(t.rows + [Row(t.nextId, v)], t.nextId + 1);
    FindAppend(t.rows, Row(t.nextId, v));
    r
  }

  lemma {:induction false} FindAppend<T>(rows: seq<Row<T>>, x: Row<T>)
    ensures forall k :: k != x.id ==> FindIn(rows + [x], k) == FindIn(rows, k)
    ensures (forall i :: 0 <= i < |rows| ==> rows[i].id != x.id) ==> FindIn(rows + [x], x.id) == Some(x.val)
  {
    if |rows| > 0 {
      assert (rows + [x])[1..] == rows[1..] + [x];
      FindAppend(rows[1..], x);
    }
  }

  /** `save` of an existing entity: the row stored under `id` now holds `v`,
      every other row is untouched and keeps its place. */
  function Replace<T(==)>(t: Table<T>, id: int, v: T): (r: Table<T>)
    ensures r.nextId == t.nextId && |r.rows| == |t.rows|
    ensures forall i :: 0 <= i < |t.rows| ==>
              r.rows[i] == (if t.rows[i].id == id then Row(id, v) else t.rows[i])
    ensures Valid(t) ==> Valid(r)
    ensures Find(r, id) == (if HasId(t, id) then Some(v) else None)
    ensures forall k :: k != id ==> Find(r, k) == Find(t, k)
  {
    var rows := seq(|t.rows|, i requires 0 <= i < |t.rows| =>
                      if t.rows[i].id == id then Row(id, v) else t.rows[i]);
    FindReplaced(t.rows, rows, id, v);
    Table(rows, t.nextId)
  }

  lemma {:induction false} FindReplaced<T>(rows: seq<Row<T>>, rows': seq<Row<T>>, id: int, v: T)
    requires |rows'| == |rows|
    requires forall i :: 0 <= i < |rows| ==> rows'[i] == (if rows[i].id == id then Row(id, v) else rows[i])
    ensures FindIn(rows', id) == (if exists i :: 0 <= i < |rows| && rows[i].id == id then Some(v) else None)
    ensures forall k :: k != id ==> FindIn(rows', k) == FindIn(rows, k)
  {
    if |rows| > 0 {
      FindReplaced(rows[1..], rows'[1..], id, v);
      if rows[0].id != id {
        if exists i :: 0 <= i < |rows| && rows[i].id == id {
          var i :| 0 <= i < |rows| && rows[i].id == id;
          assert rows[1..][i - 1].id == id;
        }
      }
    }
  }

  /** `deleteById`: the rows stored under `id` disappear, every other row is
      untouched and the identity column does not rewind. */
  function Delete<T(==)>(t: Table<T>, id: int): (r: Table<T>)
    ensures r.nextId == t.nextId
    ensures !HasId(r, id)
    ensures forall k :: k != id ==> Find(r, k) == Find(t, k)
    ensures Valid(t) ==> Valid(r)
  {
    var rows := Without(t.rows, id);
    FindWithout(t.rows, id);
    Table(rows, t.nextId)
  }

  /** The rows whose key is not `id`, in their original order. */
  function Without<T(==)>(rows: seq<Row<T>>, id: int): seq<Row<T>> {
    Filter(rows, (x: Row<T>) => x.id != id)
  }

  lemma {:induction false} FindWithout<T>(rows: seq<Row<T>>, id: int)
    ensures forall k :: k != id ==> FindIn(Without(rows, id), k) == FindIn(rows, k)
    ensures UniqueIds(rows) ==> UniqueIds(Without(rows, id))
  {
    var keep := (x: Row<T>) => x.id != id;
    if |rows| > 0 {
      FindWithout(rows[1..], id);
      var tail := Without(rows[1..], id);
      if keep(rows[0]) {
        assert Without(rows, id) == [rows[0]] + tail;
        if UniqueIds(rows) {
          assert UniqueIds(rows[1..]);
          forall j | 0 <= j < |tail| ensures tail[j].id != rows[0].id {
            assert tail[j] in rows[1..];
          }
        }
      } else {
        assert Without(rows, id) == tail;
        if UniqueIds(rows) {
          assert UniqueIds(rows[1..]);
        }
      }
    }
  }

  /** The rows of `rows` that `keep` accepts, in their original order. */
  function Filter<T(==)>(rows: seq<T>, keep: T -> bool): (r: seq<T>)
    ensures |r| <= |rows|
    ensures forall i :: 0 <= i < |r| ==> r[i] in rows && keep(r[i])
    ensures forall i :: 0 <= i < |rows| && keep(rows[i]) ==> rows[i] in r
  {
    if |rows| == 0 then []
    else if keep(rows[0]) then [rows[0]] + Filter(rows[1..], keep)
    else Filter(rows[1..], keep)
  }

  /** A filter that accepts none of the rows keeps nothing. */
  lemma {:induction false} FilterNone<T>(rows: seq<T>, keep: T -> bool)
    requires forall i :: 0 <= i < |rows| ==> !keep(rows[i])
    ensures Filter(rows, keep) == []
  {
    if |rows| > 0 {
      FilterNone(rows[1..], keep);
    }
  }

  /** `stream().filter(p).findFirst()`: the first row that `p` accepts. */
  function First<T(==)>(rows: seq<T>, p: T -> bool): (r: Option<T>)
    ensures r.None? <==> forall i :: 0 <= i < |rows| ==> !p(rows[i])
    ensures r.Some? ==> exists i :: 0 <= i < |rows| && rows[i] == r.value && p(rows[i])
                                 && forall j :: 0 <= j < i ==> !p(rows[j])
  {
    if |rows| == 0 then None
    else if p(rows[0]) then Some(rows[0])
    else
      var r := First(rows[1..], p);
      if r.Some? then
        var i :| 0 <= i < |rows[1..]| && rows[1..][i] == r.value && p(rows[1..][i])
                 && forall j :: 0 <= j < i ==> !p(rows[1..][j]);
        assert rows[i + 1] == r.value;
        r
      else
        assert forall i :: 1 <= i < |rows| ==> rows[i] == rows[1..][i - 1];
        r
  }

  // ---------------------------------------------------------------------
  // A unique column besides the key (`@Column(unique = true)`).
  // ---------------------------------------------------------------------

  /** `findByX(k).isPresent()` for the column that `key` reads. */
  predicate KeyTaken<T>(t: Table<T>, key: T -> string, k: string) {
    exists i :: 0 <= i < |t.rows| && key(t.rows[i].val) == k
  }

  /** No two rows agree on the column that `key` reads. */
  ghost predicate UniqueKey<T>(t: Table<T>, key: T -> string) {
    DistinctKeys(t.rows, key)
  }

  /** Inserting a row whose column value is still free keeps the column unique. */
  lemma InsertKeepsKeyUnique<T>(t: Table<T>, key: T -> string, v: T)
    ensures UniqueKey(t, key) && !KeyTaken(t, key, key(v)) ==> UniqueKey(Insert(t, v), key)
  {
    var r := Insert(t, v);
    assert forall i :: 0 <= i < |t.rows| ==> r.rows[i] == t.rows[i] by {
      assert r.rows[..|t.rows|] == t.rows;
    }
  }

  /** Rewriting the row stored under `id` with a value that no other row
      agrees with keeps the column unique. */
  lemma ReplaceKeepsKeyUnique<T>(t: Table<T>, key: T -> string, id: int, v': T)
    requires Valid(t) && UniqueKey(t, key)
    requires forall i :: 0 <= i < |t.rows| && t.rows[i].id != id ==> key(t.rows[i].val) != key(v')
    ensures UniqueKey(Replace(t, id, v'), key)
  {
    var r := Replace(t, id, v');
    forall i, j | 0 <= i < |r.rows| && 0 <= j < |r.rows| && i != j
      ensures key(r.rows[i].val) != key(r.rows[j].val)
    {
      assert !(t.rows[i].id == id && t.rows[j].id == id);
    }
  }

  /** Rewriting the row stored under `id` keeps the column unique when its
      value stays the same or moves to one no row holds yet. */
  lemma RewriteKeepsKeyUnique<T>(t: Table<T>, key: T -> string, id: int, v: T, v': T)
    ensures Valid(t) && UniqueKey(t, key) && Find(t, id) == Some(v)
            && (key(v') == key(v) || !KeyTaken(t, key, key(v')))
            ==> UniqueKey(Replace(t, id, v'), key)
  {
    if Valid(t) && UniqueKey(t, key) && Find(t, id) == Some(v) && (key(v') == key(v) || !KeyTaken(t, key, key(v'))) {
      var j :| 0 <= j < |t.rows| && t.rows[j] == Row(id, v)
               && forall m :: 0 <= m < j ==> t.rows[m].id != id;
      forall i | 0 <= i < |t.rows| && t.rows[i].id != id
        ensures key(t.rows[i].val) != key(v')
      {
        assert i != j;
      }
      ReplaceKeepsKeyUnique(t, key, id, v');
    }
  }

  /** Removing rows never breaks the uniqueness of a column. */
  lemma DeleteKeepsKeyUnique<T>(t: Table<T>, key: T -> string, id: int)
    ensures UniqueKey(t, key) ==> UniqueKey(Delete(t, id), key)
  {
    if UniqueKey(t, key) {
      WithoutKeepsKeysDistinct(t.rows, id, key);
    }
  }

  /** No two of the rows agree on `key`. */
  ghost predicate DistinctKeys<T>(rows: seq<Row<T>>, key: T -> string) {
    forall i, j :: 0 <= i < |rows| && 0 <= j < |rows| && i != j ==> key(rows[i].val) != key(rows[j].val)
  }

  lemma {:induction false} WithoutKeepsKeysDistinct<T>(rows: seq<Row<T>>, id: int, key: T -> string)
    requires DistinctKeys(rows, key)
    ensures DistinctKeys(Without(rows, id), key)
  {
    if |rows| > 0 {
      var tl := rows[1..];
      assert DistinctKeys(tl, key) by {
        forall i, j | 0 <= i < |tl| && 0 <= j < |tl| && i != j
          ensures key(tl[i].val) != key(tl[j].val)
        {
          assert tl[i] == rows[i + 1] && tl[j] == rows[j + 1];
        }
      }
      WithoutKeepsKeysDistinct(tl, id, key);
      var tail := Without(tl, id);
      if rows[0].id != id {
        var r := Without(rows, id);
        assert r == [rows[0]] + tail;
        forall j | 0 <= j < |tail| ensures key(tail[j].val) != key(rows[0].val) {
          var m :| 0 <= m < |tl| && tl[m] == tail[j];
          assert rows[m + 1] == tail[j];
        }
        forall i, j | 0 <= i < |r| && 0 <= j < |r| && i != j
          ensures key(r[i].val) != key(r[j].val)
        {
          if i > 0 && j > 0 {
            assert r[i] == tail[i - 1] && r[j] == tail[j - 1];
          }
        }
      } else {
        assert Without(rows, id) == tail;
      }
    }
  }
}
