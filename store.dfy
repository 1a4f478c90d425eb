/**
 * The hosted database as the pages see it: one table is a sequence of rows,
 * newest first, each carrying the identifier the store assigned on insert.
 * Listing a table "ordered by created_at, descending" is reading the sequence
 * as it stands; the page operations insert one row, patch the rows whose id
 * matches (`.update(...).eq("id", id)`) or delete them (`.delete().eq("id", id)`).
 */
module Store {
  import opened Wrappers

  /** One row of a remote table: its store-assigned id and its columns. */
  datatype Row<F> = Row(id: string, fields: F)

  /** An error the store reports; its message may be empty. */
  datatype StoreError = StoreError(message: string)

  /** A read reply, the `{ data, error }` pair the client library returns. */
  datatype Response<T> = Response(data: Option<T>, error: Option<StoreError>)

  /** `err.message || fallback`: the text a page shows for a failed write. */
  function ErrorText(e: StoreError, fallback: string): (r: string)
    ensures r == e.message || r == fallback
    ensures r == "" ==> e.message == "" && fallback == ""
  {
    if e.message != "" then e.message else fallback
  }

  /** The ids of a table, in table order. */
  function Ids<F>(t: seq<Row<F>>): (r: seq<string>)
    ensures |r| == |t|
    ensures forall i :: 0 <= i < |t| ==> r[i] == t[i].id
  {
    if t == [] then [] else [t[0].id] + Ids(t[1..])
  }

  /** The primary-key invariant: no id occurs twice. */
  ghost predicate DistinctIds<F>(t: seq<Row<F>>) {
    forall i, j :: 0 <= i < j < |t| ==> t[i].id != t[j].id
  }

  /** How many rows carry `id`. */
  function Count<F>(t: seq<Row<F>>, id: string): nat {
    if t == [] then 0 else (if t[0].id == id then 1 else 0) + Count(t[1..], id)
  }

  /** The columns of the (first) row with `id`, as a single-row select returns them. */
  function Find<F>(t: seq<Row<F>>, id: string): (r: Option<F>)
    ensures r.None? <==> id !in Ids(t)
    ensures r.Some? ==> exists i :: 0 <= i < |t| && t[i] == Row(id, r.value)
  {
    if t == [] then None
    else if t[0].id == id then Some(t[0].fields)
    else
      assert Ids(t) == [t[0].id] + Ids(t[1..]);
      var r := Find(t[1..], id);
      assert r.Some? ==> exists i :: 0 <= i < |t[1..]| && t[1..][i] == Row(id, r.value);
      r
  }

  /** An insert: the new row becomes the newest one. */
  function Insert<F>(t: seq<Row<F>>, id: string, f: F): (r: seq<Row<F>>)
    ensures |r| == |t| + 1 && r[0] == Row(id, f) && r[1..] == t
  {
    [Row(id, f)] + t
  }

  /** `.update(patch).eq("id", id)`: every row with `id` gets `patch` applied;
      ids, order and every other row stay as they were. */
  function UpdateById<F>(t: seq<Row<F>>, id: string, patch: F -> F): (r: seq<Row<F>>)
    ensures |r| == |t|
    ensures forall i :: 0 <= i < |t| ==> r[i].id == t[i].id
    ensures forall i :: 0 <= i < |t| ==>
      r[i].fields == if t[i].id == id then patch(t[i].fields) else t[i].fields
  {
    if t == [] then []
    else [if t[0].id == id then Row(id, patch(t[0].fields)) else t[0]] + UpdateById(t[1..], id, patch)
  }

  /** `.delete().eq("id", id)`: exactly the rows with `id` disappear. */
  function DeleteById<F(==)>(t: seq<Row<F>>, id: string): (r: seq<Row<F>>)
    ensures forall i :: 0 <= i < |r| ==> r[i] in t && r[i].id != id
    ensures forall i :: 0 <= i < |t| && t[i].id != id ==> t[i] in r
    ensures |r| == |t| - Count(t, id)
  {
    if t == [] then []
    else if t[0].id == id then DeleteById(t[1..], id)
    else [t[0]] + DeleteById(t[1..], id)
  }

  /** A row with `id` is counted exactly when `id` is among the ids. */
  lemma {:induction false} CountPositive<F>(t: seq<Row<F>>, id: string)
    ensures Count(t, id) > 0 <==> id in Ids(t)
  {
    if t != [] {
      CountPositive(t[1..], id);
      assert Ids(t) == [t[0].id] + Ids(t[1..]);
    }
  }

  /** Under the primary-key invariant an id is carried by at most one row. */
  lemma {:induction false} CountAtMostOne<F>(t: seq<Row<F>>, id: string)
    requires DistinctIds(t)
    ensures Count(t, id) == if id in Ids(t) then 1 else 0
  {
    if t != [] {
      CountAtMostOne(t[1..], id);
      assert Ids(t) == [t[0].id] + Ids(t[1..]);
      if t[0].id == id {
        assert id !in Ids(t[1..]);
      }
    }
  }

  /** Inserting under a fresh id keeps ids distinct, and a list read afterwards
      holds the new row exactly once, with the submitted columns. */
  lemma InsertListedOnce<F>(t: seq<Row<F>>, id: string, f: F)
    requires DistinctIds(t) && id !in Ids(t)
    ensures DistinctIds(Insert(t, id, f))
    ensures Count(Insert(t, id, f), id) == 1
    ensures Find(Insert(t, id, f), id) == Some(f)
  {
    var r := Insert(t, id, f);
    assert r[1..] == t;
    CountPositive(t, id);
  }

  /** A list read after deleting `id` holds no row with `id`, and exactly one
      row is gone when `id` was present. */
  lemma DeleteRemovesOne<F>(t: seq<Row<F>>, id: string)
    requires DistinctIds(t)
    ensures id !in Ids(DeleteById(t, id))
    ensures |DeleteById(t, id)| == |t| - (if id in Ids(t) then 1 else 0)
  {
    CountAtMostOne(t, id);
  }

  /** Deleting keeps the primary-key invariant. */
  lemma {:induction false} DeleteKeepsDistinct<F>(t: seq<Row<F>>, id: string)
    requires DistinctIds(t)
    ensures DistinctIds(DeleteById(t, id))
  {
    if t != [] {
      var rest := DeleteById(t[1..], id);
      DeleteKeepsDistinct(t[1..], id);
      if t[0].id != id {
        HeadNotInTail(t);
        ConsDistinct(t[0], rest);
      }
    }
  }

  /** Under the invariant the newest row's id occurs nowhere below it. */
  lemma HeadNotInTail<F>(t: seq<Row<F>>)
    requires t != [] && DistinctIds(t)
    ensures forall j :: 0 <= j < |t[1..]| ==> t[1..][j].id != t[0].id
  {
    assert forall j :: 0 <= j < |t[1..]| ==> t[1..][j] == t[j + 1];
  }

  /** Putting a row on top of a table keeps the ids distinct when its id is new. */
  lemma ConsDistinct<F>(x: Row<F>, rest: seq<Row<F>>)
    requires DistinctIds(rest) && forall y :: y in rest ==> y.id != x.id
    ensures DistinctIds([x] + rest)
  {
    var r := [x] + rest;
    forall i, j | 0 <= i < j < |r| ensures r[i].id != r[j].id {
      assert r[j] == rest[j - 1];
      if i > 0 {
        assert r[i] == rest[i - 1];
      }
    }
  }

  /** Deleting an absent id changes nothing. */
  lemma {:induction false} DeleteAbsent<F>(t: seq<Row<F>>, id: string)
    requires id !in Ids(t)
    ensures DeleteById(t, id) == t
  {
    if t != [] {
      assert Ids(t) == [t[0].id] + Ids(t[1..]);
      DeleteAbsent(t[1..], id);
      assert [t[0]] + t[1..] == t;
    }
  }

  /** Deleting keeps the surviving rows in order: it distributes over concatenation. */
  lemma {:induction false} DeleteKeepsOrder<F>(t1: seq<Row<F>>, t2: seq<Row<F>>, id: string)
    ensures DeleteById(t1 + t2, id) == DeleteById(t1, id) + DeleteById(t2, id)
  {
    if t1 != [] {
      assert (t1 + t2)[1..] == t1[1..] + t2;
      DeleteKeepsOrder(t1[1..], t2, id);
    } else {
      assert t1 + t2 == t2;
    }
  }

  /** Updating keeps ids, hence the primary-key invariant. */
  lemma UpdateKeepsIds<F>(t: seq<Row<F>>, id: string, patch: F -> F)
    ensures Ids(UpdateById(t, id, patch)) == Ids(t)
    ensures DistinctIds(t) ==> DistinctIds(UpdateById(t, id, patch))
  {
  }

  /** After an update, a single-row read of `id` sees the patched columns and a
      read of any other id sees what it saw before. */
  lemma FindAfterUpdate<F>(t: seq<Row<F>>, id: string, other: string, patch: F -> F)
    requires DistinctIds(t)
    ensures Find(UpdateById(t, id, patch), id) ==
      (if Find(t, id).Some? then Some(patch(Find(t, id).value)) else None)
    ensures other != id ==> Find(UpdateById(t, id, patch), other) == Find(t, other)
  {
    var r := UpdateById(t, id, patch);
    UpdateKeepsIds(t, id, patch);
    FindFirst(t, id);
    FindFirst(r, id);
    FindFirst(t, other);
    FindFirst(r, other);
  }

  /** Under the primary-key invariant `Find` returns the columns of the one
      row that carries the id. */
  lemma {:induction false} FindFirst<F>(t: seq<Row<F>>, id: string)
    requires DistinctIds(t)
    ensures forall i :: 0 <= i < |t| && t[i].id == id ==> Find(t, id) == Some(t[i].fields)
  {
    if t != [] {
      FindFirst(t[1..], id);
      forall i | 0 <= i < |t| && t[i].id == id ensures Find(t, id) == Some(t[i].fields) {
        if i > 0 {
          assert t[1..][i - 1] == t[i];
        }
      }
    }
  }

  /** An update undone: when `undo` reverses `patch` on the targeted row,
      applying both in turn restores the table. */
  lemma UpdateUndone<F>(t: seq<Row<F>>, id: string, patch: F -> F, undo: F -> F)
    requires forall i :: 0 <= i < |t| && t[i].id == id ==> undo(patch(t[i].fields)) == t[i].fields
    ensures UpdateById(UpdateById(t, id, patch), id, undo) == t
  {
    var r := UpdateById(UpdateById(t, id, patch), id, undo);
    forall i | 0 <= i < |t| ensures r[i] == t[i] {
    }
  }

  /** An update whose patch is idempotent on the targeted row is idempotent. */
  lemma UpdateIdempotent<F>(t: seq<Row<F>>, id: string, patch: F -> F)
    requires forall i :: 0 <= i < |t| && t[i].id == id ==> patch(patch(t[i].fields)) == patch(t[i].fields)
    ensures UpdateById(UpdateById(t, id, patch), id, patch) == UpdateById(t, id, patch)
  {
    var once := UpdateById(t, id, patch);
    var r := UpdateById(once, id, patch);
    forall i | 0 <= i < |t| ensures r[i] == once[i] {
    }
  }
}
