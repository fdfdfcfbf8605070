/**
 * A database table as the modelled mutations see it: documents in
 * creation order, each under a unique id. `insert` appends under a fresh
 * id; `patch` rewrites one document; `delete` removes one. Patching or
 * deleting an id that is not in the table is refused (the runtime throws).
 */
module Database {
  import opened Wrappers

  datatype Row<D> = Row(id: nat, doc: D)

  function Ids<D(==)>(rows: seq<Row<D>>): set<nat> {
    set r | r in rows :: r.id
  }

  predicate UniqueIds<D(==)>(rows: seq<Row<D>>) {
    forall i, j :: 0 <= i < j < |rows| ==> rows[i].id != rows[j].id
  }

  /** The documents, in creation order (`.collect()`). */
  function Docs<D(==)>(rows: seq<Row<D>>): (docs: seq<D>)
    ensures |docs| == |rows|
    ensures forall i :: 0 <= i < |rows| ==> docs[i] == rows[i].doc
  {
    seq(|rows|, i requires 0 <= i < |rows| => rows[i].doc)
  }

  /** The rows after applying `update` to the document stored under `id`. */
  function Updated<D(==)>(rows: seq<Row<D>>, id: nat, update: D -> D): (r: seq<Row<D>>)
    ensures |r| == |rows|
    ensures forall i :: 0 <= i < |rows| ==> r[i].id == rows[i].id
    ensures forall i :: 0 <= i < |rows| && rows[i].id != id ==> r[i] == rows[i]
    ensures forall i :: 0 <= i < |rows| && rows[i].id == id ==> r[i].doc == update(rows[i].doc)
  {
    seq(|rows|, i requires 0 <= i < |rows| =>
      if rows[i].id == id then Row(id, update(rows[i].doc)) else rows[i])
  }

  /** The rows without the row stored under `id`. */
  function Removed<D(==)>(rows: seq<Row<D>>, id: nat): (r: seq<Row<D>>)
    ensures forall i :: 0 <= i < |r| ==> r[i] in rows && r[i].id != id
    ensures forall i :: 0 <= i < |rows| && rows[i].id != id ==> rows[i] in r
    ensures |r| <= |rows|
  {
    if rows == [] then []
    else if rows[0].id == id then Removed(rows[1..], id)
    else [rows[0]] + Removed(rows[1..], id)
  }

  lemma IdsCons<D>(x: Row<D>, rest: seq<Row<D>>)
    ensures Ids([x] + rest) == {x.id} + Ids(rest)
  {
    var s := [x] + rest;
    forall n | n in Ids(s) ensures n in {x.id} + Ids(rest) {
      var r :| r in s && r.id == n;
      if r != x {
        assert r in rest;
      }
    }
    forall n | n in Ids(rest) ensures n in Ids(s) {
      var r :| r in rest && r.id == n;
      assert r in s;
    }
  }

  lemma UniqueCons<D>(x: Row<D>, rest: seq<Row<D>>)
    ensures UniqueIds([x] + rest) <==> x.id !in Ids(rest) && UniqueIds(rest)
  {
    var s := [x] + rest;
    if UniqueIds(s) {
      forall r | r in rest ensures r.id != x.id {
        var k :| 0 <= k < |rest| && rest[k] == r;
        assert s[0] == x && s[k + 1] == r;
        assert s[0].id != s[k + 1].id;
      }
      forall i, j | 0 <= i < j < |rest| ensures rest[i].id != rest[j].id {
        assert s[i + 1] == rest[i] && s[j + 1] == rest[j];
      }
    }
    if x.id !in Ids(rest) && UniqueIds(rest) {
      forall i, j | 0 <= i < j < |s| ensures s[i].id != s[j].id {
        if i == 0 {
          assert s[j] == rest[j - 1];
          assert s[j] in rest;
        } else {
          assert s[i] == rest[i - 1] && s[j] == rest[j - 1];
        }
      }
    }
  }

  lemma {:induction false} RemovedUnique<D>(rows: seq<Row<D>>, id: nat)
    requires UniqueIds(rows)
    ensures UniqueIds(Removed(rows, id))
    ensures Ids(Removed(rows, id)) == Ids(rows) - {id}
    decreases |rows|
  {
    if rows != [] {
      assert rows == [rows[0]] + rows[1..];
      UniqueCons(rows[0], rows[1..]);
      IdsCons(rows[0], rows[1..]);
      RemovedUnique(rows[1..], id);
      var rest := Removed(rows[1..], id);
      if rows[0].id != id {
        UniqueCons(rows[0], rest);
        IdsCons(rows[0], rest);
      }
    }
  }

  /** Removing an id that is not stored changes nothing. */
  lemma {:induction false} RemovedAbsent<D>(rows: seq<Row<D>>, id: nat)
    requires id !in Ids(rows)
    ensures Removed(rows, id) == rows
    decreases |rows|
  {
    if rows != [] {
      assert rows[0] in rows;
      assert forall r :: r in rows[1..] ==> r in rows;
      RemovedAbsent(rows[1..], id);
    }
  }

  /** Removing from `[x] + rest` drops `x` when it has the id, and keeps it otherwise. */
  lemma RemovedCons<D>(x: Row<D>, rest: seq<Row<D>>, id: nat)
    ensures Removed([x] + rest, id) == (if x.id == id then [] else [x]) + Removed(rest, id)
  {
    var s := [x] + rest;
    assert s[0] == x && s[1..] == rest;
  }

  /** Removing the one row stored under an id takes out exactly that row. */
  lemma {:induction false} RemovedOnly<D>(a: seq<Row<D>>, x: Row<D>, b: seq<Row<D>>)
    requires x.id !in Ids(a) && x.id !in Ids(b)
    ensures Removed(a + [x] + b, x.id) == a + b
    decreases |a|
  {
    if a == [] {
      calc {
        Removed(a + [x] + b, x.id);
        { assert a + [x] + b == [x] + b; }
        Removed([x] + b, x.id);
        { RemovedCons(x, b, x.id); }
        [] + Removed(b, x.id);
        { RemovedAbsent(b, x.id); }
        [] + b;
        { assert a + b == b; }
        a + b;
      }
    } else {
      var head, tail := a[0], a[1..];
      assert head.id != x.id by {
        assert head in a;
      }
      assert x.id !in Ids(tail) by {
        assert forall r :: r in tail ==> r in a;
      }
      calc {
        Removed(a + [x] + b, x.id);
        { assert a + [x] + b == [head] + (tail + [x] + b); }
        Removed([head] + (tail + [x] + b), x.id);
        { RemovedCons(head, tail + [x] + b, x.id); }
        [head] + Removed(tail + [x] + b, x.id);
        { RemovedOnly(tail, x, b); }
        [head] + (tail + b);
        { assert a == [head] + tail; }
        a + b;
      }
    }
  }

  /** `db.get(id)`: the document stored under `id`, if any. */
  function Find<D(==)>(rows: seq<Row<D>>, id: nat): (r: Option<D>)
    ensures r.Some? <==> id in Ids(rows)
    ensures r.Some? ==> Row(id, r.value) in rows
    ensures UniqueIds(rows) ==> forall k :: 0 <= k < |rows| && rows[k].id == id ==> r == Some(rows[k].doc)
    decreases |rows|
  {
    if rows == [] then None
    else
      assert rows == [rows[0]] + rows[1..];
      IdsCons(rows[0], rows[1..]);
      UniqueCons(rows[0], rows[1..]);
      if rows[0].id == id then Some(rows[0].doc) else Find(rows[1..], id)
  }

  lemma UpdatedTail<D>(rows: seq<Row<D>>, id: nat, update: D -> D)
    requires rows != []
    ensures Updated(rows, id, update)[1..] == Updated(rows[1..], id, update)
  {
  }

  /** Updating a document keeps every id. */
  lemma UpdatedIds<D>(rows: seq<Row<D>>, id: nat, update: D -> D)
    ensures Ids(Updated(rows, id, update)) == Ids(rows)
  {
    var u := Updated(rows, id, update);
    forall n | n in Ids(u) ensures n in Ids(rows) {
      var r :| r in u && r.id == n;
      var m :| 0 <= m < |u| && u[m] == r;
      assert rows[m] in rows;
    }
    forall n | n in Ids(rows) ensures n in Ids(u) {
      var r :| r in rows && r.id == n;
      var m :| 0 <= m < |rows| && rows[m] == r;
      assert u[m] in u;
    }
  }

  /** Updating an id that is not stored changes nothing. */
  lemma UpdatedAbsent<D>(rows: seq<Row<D>>, id: nat, update: D -> D)
    requires forall k :: 0 <= k < |rows| ==> rows[k].id != id
    ensures Updated(rows, id, update) == rows
  {
  }

  class Table<D(==)> {
    var rows: seq<Row<D>>
    var nextId: nat

    ghost predicate Valid()
      reads this
    {
      UniqueIds(rows) && forall i :: 0 <= i < |rows| ==> rows[i].id < nextId
    }

    constructor ()
      ensures Valid() && rows == []
    {
      rows := [];
      nextId := 0;
    }

    /** `db.insert(doc)`: a fresh id, the document appended. */
    method Insert(doc: D) returns (id: nat)
      requires Valid()
      modifies this
      ensures Valid()
      ensures id !in Ids(old(rows)) && id == old(nextId) && nextId > old(nextId)
      ensures rows == old(rows) + [Row(id, doc)]
    {
      id := nextId;
      rows := rows + [Row(id, doc)];
      nextId := nextId + 1;
    }

    /** `db.patch(id, fields)`: the stored document rewritten by `update`; false when `id` is absent. */
    method Patch(id: nat, update: D -> D) returns (ok: bool)
      requires Valid()
      modifies this
      ensures Valid()
      ensures ok <==> id in Ids(old(rows))
      ensures rows == Updated(old(rows), id, update) && nextId == old(nextId)
      ensures Ids(rows) == Ids(old(rows))
    {
      ok := id in Ids(rows);
      UpdatedIds(rows, id, update);
      rows := Updated(rows, id, update);
    }

    /** `db.delete(id)`: the row removed; false when `id` is absent. */
    method Delete(id: nat) returns (ok: bool)
      requires Valid()
      modifies this
      ensures Valid()
      ensures ok <==> id in Ids(old(rows))
      ensures rows == Removed(old(rows), id) && nextId == old(nextId)
      ensures Ids(rows) == Ids(old(rows)) - {id}
    {
      ok := id in Ids(rows);
      RemovedUnique(rows, id);
      rows := Removed(rows, id);
    }

    /** A mutation that throws is rolled back: the rows return to the snapshot taken before it. */
    method Rollback(snapshot: seq<Row<D>>)
      requires Valid() && UniqueIds(snapshot)
      requires forall i :: 0 <= i < |snapshot| ==> snapshot[i].id < nextId
      modifies this
      ensures Valid() && rows == snapshot && nextId == old(nextId)
    {
      rows := snapshot;
    }
  }
}
