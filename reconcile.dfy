/**
 * The slug-keyed reconciliation behind the content sync mutations. A
 * snapshot of the table is taken; each incoming item patches the stored
 * document whose slug it carries (the last such document of the snapshot,
 * as a `Map` built from it keeps the last entry per key) or is inserted;
 * every document of the snapshot whose slug is not incoming is deleted.
 * Every written document is stamped with the sync time.
 */
module Reconcile {
  import opened Wrappers
  import opened Database

  /** How a sync reads and writes one kind of document, from inputs of type `I`. */
  datatype Kind<!I, !D> = Kind(
    docSlug: D -> string,
    inputSlug: I -> string,
    create: I -> D,
    patch: (D, I) -> D,
    stamped: D -> bool)

  /** Created and patched documents carry the input's slug and are stamped. */
  ghost predicate Coherent<I(!new), D(!new)>(kind: Kind<I, D>) {
    (forall i :: kind.docSlug(kind.create(i)) == kind.inputSlug(i) && kind.stamped(kind.create(i))) &&
    (forall d, i :: kind.docSlug(kind.patch(d, i)) == kind.inputSlug(i) && kind.stamped(kind.patch(d, i)))
  }

  datatype SyncCounts = SyncCounts(created: nat, updated: nat, deleted: nat)

  function Slugs<I, D(==)>(kind: Kind<I, D>, rows: seq<Row<D>>): set<string> {
    set r | r in rows :: kind.docSlug(r.doc)
  }

  function InputSlugs<I(==), D>(kind: Kind<I, D>, items: seq<I>): set<string> {
    set p | p in items :: kind.inputSlug(p)
  }

  predicate UniqueSlugs<I, D>(kind: Kind<I, D>, rows: seq<Row<D>>) {
    forall i, j :: 0 <= i < j < |rows| ==> kind.docSlug(rows[i].doc) != kind.docSlug(rows[j].doc)
  }

  /** The row a `Map` built from `rows` by slug returns for `slug`: the last row with it, or -1. */
  function LastIndexWithSlug<I, D(==)>(kind: Kind<I, D>, rows: seq<Row<D>>, slug: string): (k: int)
    ensures -1 <= k < |rows|
    ensures k >= 0 ==> kind.docSlug(rows[k].doc) == slug &&
                       forall m :: k < m < |rows| ==> kind.docSlug(rows[m].doc) != slug
    ensures k == -1 <==> slug !in Slugs(kind, rows)
    decreases |rows|
  {
    if rows == [] then -1
    else if kind.docSlug(rows[|rows| - 1].doc) == slug then |rows| - 1
    else
      var k := LastIndexWithSlug(kind, rows[..|rows| - 1], slug);
      assert forall r :: r in rows ==> r in rows[..|rows| - 1] || r == rows[|rows| - 1];
      assert forall r :: r in rows[..|rows| - 1] ==> r in rows;
      k
  }

  /** How many items carry a slug in `known`. */
  function KnownCount<I, D>(kind: Kind<I, D>, items: seq<I>, known: set<string>): (n: nat)
    ensures n <= |items|
    decreases |items|
  {
    if items == [] then 0
    else KnownCount(kind, items[..|items| - 1], known) + (if kind.inputSlug(items[|items| - 1]) in known then 1 else 0)
  }

  /** How many rows carry a slug outside `incoming`. */
  function StaleCount<I, D>(kind: Kind<I, D>, rows: seq<Row<D>>, incoming: set<string>): (n: nat)
    ensures n <= |rows|
    decreases |rows|
  {
    if rows == [] then 0
    else StaleCount(kind, rows[..|rows| - 1], incoming) + (if kind.docSlug(rows[|rows| - 1].doc) in incoming then 0 else 1)
  }

  /** The ids of the rows whose slug is not incoming. */
  function StaleIds<I, D(==)>(kind: Kind<I, D>, rows: seq<Row<D>>, incoming: set<string>): set<nat> {
    set r | r in rows && kind.docSlug(r.doc) !in incoming :: r.id
  }

  /** Into an empty table every item is created; when every slug is known every item is an update. */
  lemma {:induction false} KnownCountBounds<I, D>(kind: Kind<I, D>, items: seq<I>, known: set<string>)
    ensures (forall p :: p in items ==> kind.inputSlug(p) !in known) ==> KnownCount(kind, items, known) == 0
    ensures (forall p :: p in items ==> kind.inputSlug(p) in known) ==> KnownCount(kind, items, known) == |items|
    decreases |items|
  {
    if items != [] {
      KnownCountBounds(kind, items[..|items| - 1], known);
      assert forall p :: p in items[..|items| - 1] ==> p in items;
    }
  }

  /** The count of stale rows is zero exactly when no id is stale. */
  lemma {:induction false} StaleCountZero<I, D>(kind: Kind<I, D>, rows: seq<Row<D>>, incoming: set<string>)
    ensures StaleCount(kind, rows, incoming) == 0 <==> StaleIds(kind, rows, incoming) == {}
    decreases |rows|
  {
    if rows != [] {
      var last := rows[|rows| - 1];
      StaleCountZero(kind, rows[..|rows| - 1], incoming);
      StaleIdsSnoc(kind, rows[..|rows| - 1], last, incoming);
      assert rows[..|rows| - 1] + [last] == rows;
    }
  }

  /** The first `i + 1` items are the first `i` and item `i`. */
  lemma PrefixSnoc<I>(items: seq<I>, i: nat)
    requires i < |items|
    ensures items[..i + 1] == items[..i] + [items[i]]
  {
  }

  lemma KnownCountSnoc<I, D>(kind: Kind<I, D>, items: seq<I>, p: I, known: set<string>)
    ensures KnownCount(kind, items + [p], known) == KnownCount(kind, items, known) + (if kind.inputSlug(p) in known then 1 else 0)
  {
    assert (items + [p])[..|items|] == items;
  }

  lemma InputSlugsSnoc<I, D>(kind: Kind<I, D>, items: seq<I>, p: I)
    ensures InputSlugs(kind, items + [p]) == InputSlugs(kind, items) + {kind.inputSlug(p)}
  {
    assert forall q :: q in items + [p] <==> q in items || q == p;
  }

  lemma StaleIdsSnoc<I, D>(kind: Kind<I, D>, rows: seq<Row<D>>, r: Row<D>, incoming: set<string>)
    ensures StaleIds(kind, rows + [r], incoming) ==
            StaleIds(kind, rows, incoming) + (if kind.docSlug(r.doc) in incoming then {} else {r.id})
  {
    assert forall q :: q in rows + [r] <==> q in rows || q == r;
  }

  // ---------------------------------------------------------------------
  // The upsert loop

  /** The snapshot's rows are still first, under the same ids and slugs. */
  ghost predicate KeepsSnapshot<I, D>(kind: Kind<I, D>, existing: seq<Row<D>>, rows: seq<Row<D>>) {
    |rows| >= |existing| &&
    forall k :: 0 <= k < |existing| ==>
      rows[k].id == existing[k].id && kind.docSlug(rows[k].doc) == kind.docSlug(existing[k].doc)
  }

  /** The rows after the snapshot are new, carry a slug in `seen` and are stamped. */
  ghost predicate NewRowsStamped<I, D>(kind: Kind<I, D>, existing: seq<Row<D>>, rows: seq<Row<D>>, seen: set<string>) {
    forall k :: |existing| <= k < |rows| ==>
      kind.docSlug(rows[k].doc) in seen && kind.stamped(rows[k].doc) && rows[k].id !in Ids(existing)
  }

  /** The index of the last item carrying `slug`, or -1: the item whose write that slug ends with. */
  function LastInputWithSlug<I(==), D>(kind: Kind<I, D>, items: seq<I>, slug: string): (j: int)
    ensures -1 <= j < |items|
    ensures j >= 0 ==> kind.inputSlug(items[j]) == slug &&
                       forall m :: j < m < |items| ==> kind.inputSlug(items[m]) != slug
    ensures j == -1 <==> slug !in InputSlugs(kind, items)
    decreases |items|
  {
    if items == [] then -1
    else if kind.inputSlug(items[|items| - 1]) == slug then |items| - 1
    else
      var j := LastInputWithSlug(kind, items[..|items| - 1], slug);
      assert forall q :: q in items ==> q in items[..|items| - 1] || q == items[|items| - 1];
      assert forall q :: q in items[..|items| - 1] ==> q in items;
      j
  }

  lemma LastInputSnoc<I, D>(kind: Kind<I, D>, items: seq<I>, p: I, slug: string)
    ensures LastInputWithSlug(kind, items + [p], slug) ==
            if kind.inputSlug(p) == slug then |items| else LastInputWithSlug(kind, items, slug)
  {
    assert (items + [p])[..|items|] == items;
  }

  /**
   * The stored document `d` after the upsert loop has patched it, in order,
   * with every item carrying `slug`.
   */
  function PatchAll<I(==, !new), D(!new)>(kind: Kind<I, D>, d: D, items: seq<I>, slug: string): (r: D)
    ensures slug !in InputSlugs(kind, items) ==> r == d
    ensures Coherent(kind) && slug in InputSlugs(kind, items) ==> kind.docSlug(r) == slug && kind.stamped(r)
    decreases |items|
  {
    if items == [] then d
    else
      var init, last := items[..|items| - 1], items[|items| - 1];
      var prev := PatchAll(kind, d, init, slug);
      assert items == init + [last];
      InputSlugsSnoc(kind, init, last);
      if kind.inputSlug(last) == slug then kind.patch(prev, last) else prev
  }

  lemma PatchAllSnoc<I(!new), D(!new)>(kind: Kind<I, D>, d: D, items: seq<I>, p: I, slug: string)
    ensures PatchAll(kind, d, items + [p], slug) ==
            if kind.inputSlug(p) == slug then kind.patch(PatchAll(kind, d, items, slug), p) else PatchAll(kind, d, items, slug)
  {
    assert (items + [p])[..|items|] == items;
  }

  /** The fold ends with the last item carrying the slug: the items after it leave it alone. */
  lemma {:induction false} PatchAllLast<I(!new), D(!new)>(kind: Kind<I, D>, d: D, items: seq<I>, slug: string)
    requires slug in InputSlugs(kind, items)
    ensures var j := LastInputWithSlug(kind, items, slug);
            PatchAll(kind, d, items, slug) == kind.patch(PatchAll(kind, d, items[..j], slug), items[j])
    decreases |items|
  {
    var init, last := items[..|items| - 1], items[|items| - 1];
    assert items == init + [last];
    LastInputSnoc(kind, init, last, slug);
    PatchAllSnoc(kind, d, init, last, slug);
    InputSlugsSnoc(kind, init, last);
    if kind.inputSlug(last) != slug {
      PatchAllLast(kind, d, init, slug);
      var j := LastInputWithSlug(kind, init, slug);
      assert items[..j] == init[..j];
    }
  }

  /** The documents the upsert loop inserts, in order: one per item whose slug is not in `known`. */
  function Created<I, D>(kind: Kind<I, D>, items: seq<I>, known: set<string>): (docs: seq<D>)
    ensures |docs| + KnownCount(kind, items, known) == |items|
    decreases |items|
  {
    if items == [] then []
    else
      var last := items[|items| - 1];
      Created(kind, items[..|items| - 1], known) + (if kind.inputSlug(last) in known then [] else [kind.create(last)])
  }

  lemma CreatedSnoc<I, D>(kind: Kind<I, D>, items: seq<I>, p: I, known: set<string>)
    ensures Created(kind, items + [p], known) ==
            Created(kind, items, known) + (if kind.inputSlug(p) in known then [] else [kind.create(p)])
  {
    assert (items + [p])[..|items|] == items;
  }

  /** A document is inserted exactly when some item outside `known` creates it. */
  lemma {:induction false} CreatedMembers<I, D>(kind: Kind<I, D>, items: seq<I>, known: set<string>, d: D)
    ensures d in Created(kind, items, known) <==>
            exists p :: p in items && kind.inputSlug(p) !in known && d == kind.create(p)
    decreases |items|
  {
    if items != [] {
      var init, last := items[..|items| - 1], items[|items| - 1];
      assert items == init + [last];
      CreatedMembers(kind, init, known, d);
      if exists p :: p in items && kind.inputSlug(p) !in known && d == kind.create(p) {
        var p :| p in items && kind.inputSlug(p) !in known && d == kind.create(p);
        if p != last {
          assert p in init;
        }
      }
    }
  }

  /**
   * Snapshot row `k` after the items: the last snapshot row with its slug
   * holds its stored document patched with every item carrying that slug;
   * every other snapshot row is as stored.
   */
  ghost predicate WrittenAt<I(!new), D(!new)>(kind: Kind<I, D>, existing: seq<Row<D>>, rows: seq<Row<D>>, items: seq<I>, k: nat)
    requires k < |existing| <= |rows|
  {
    var s := kind.docSlug(existing[k].doc);
    if LastIndexWithSlug(kind, existing, s) == k then
      rows[k].doc == PatchAll(kind, existing[k].doc, items, s)
    else
      rows[k] == existing[k]
  }

  ghost predicate SnapshotWritten<I(!new), D(!new)>(kind: Kind<I, D>, existing: seq<Row<D>>, rows: seq<Row<D>>, items: seq<I>) {
    |existing| <= |rows| &&
    forall k :: 0 <= k < |existing| ==> WrittenAt(kind, existing, rows, items, k)
  }

  /** The rows after the snapshot are the inserted documents, in order. */
  ghost predicate NewRowsCreated<I, D>(kind: Kind<I, D>, existing: seq<Row<D>>, rows: seq<Row<D>>, items: seq<I>) {
    var docs := Created(kind, items, Slugs(kind, existing));
    |rows| == |existing| + |docs| &&
    forall k :: |existing| <= k < |rows| ==> rows[k].doc == docs[k - |existing|]
  }

  /** What the upsert loop leaves after `items`. */
  ghost predicate Upserted<I(!new), D(!new)>(kind: Kind<I, D>, existing: seq<Row<D>>, rows: seq<Row<D>>, items: seq<I>) {
    KeepsSnapshot(kind, existing, rows) &&
    NewRowsStamped(kind, existing, rows, InputSlugs(kind, items)) &&
    InputSlugs(kind, items) <= Slugs(kind, rows) &&
    SnapshotWritten(kind, existing, rows, items) &&
    NewRowsCreated(kind, existing, rows, items)
  }

  /** The update a sync patches a stored document with. */
  function PatchWith<I, D>(kind: Kind<I, D>, p: I): D -> D {
    (d: D) => kind.patch(d, p)
  }

  /** Before any item the table is the snapshot, which is upserted for no items. */
  lemma UpsertedStart<I(!new), D(!new)>(kind: Kind<I, D>, existing: seq<Row<D>>, items: seq<I>)
    requires items == []
    ensures Upserted(kind, existing, existing, items)
  {
    assert Created(kind, items, Slugs(kind, existing)) == [];
    forall k | 0 <= k < |existing| ensures WrittenAt(kind, existing, existing, items, k) {
    }
  }

  lemma InsertKeepsWritten<I(!new), D(!new)>(kind: Kind<I, D>, existing: seq<Row<D>>, rows: seq<Row<D>>, items: seq<I>, p: I, id: nat)
    requires SnapshotWritten(kind, existing, rows, items) && kind.inputSlug(p) !in Slugs(kind, existing)
    ensures SnapshotWritten(kind, existing, rows + [Row(id, kind.create(p))], items + [p])
  {
    var u := rows + [Row(id, kind.create(p))];
    forall k | 0 <= k < |existing| ensures WrittenAt(kind, existing, u, items + [p], k) {
      var s := kind.docSlug(existing[k].doc);
      assert existing[k] in existing;
      PatchAllSnoc(kind, existing[k].doc, items, p, s);
      assert WrittenAt(kind, existing, rows, items, k);
    }
  }

  lemma InsertKeepsCreated<I, D>(kind: Kind<I, D>, existing: seq<Row<D>>, rows: seq<Row<D>>, items: seq<I>, p: I, id: nat)
    requires NewRowsCreated(kind, existing, rows, items) && kind.inputSlug(p) !in Slugs(kind, existing)
    ensures NewRowsCreated(kind, existing, rows + [Row(id, kind.create(p))], items + [p])
  {
    CreatedSnoc(kind, items, p, Slugs(kind, existing));
  }

  lemma InsertKeepsUpserted<I(!new), D(!new)>(kind: Kind<I, D>, existing: seq<Row<D>>, rows: seq<Row<D>>,
                                                  items: seq<I>, p: I, id: nat)
    requires Coherent(kind) && Upserted(kind, existing, rows, items)
    requires id !in Ids(rows) && kind.inputSlug(p) !in Slugs(kind, existing)
    ensures Upserted(kind, existing, rows + [Row(id, kind.create(p))], items + [p])
  {
    var u := rows + [Row(id, kind.create(p))];
    InputSlugsSnoc(kind, items, p);
    assert id !in Ids(existing) by {
      forall r | r in existing ensures r.id != id {
        var k :| 0 <= k < |existing| && existing[k] == r;
        assert rows[k] in rows;
      }
    }
    assert u[|rows|] in u;
    assert forall r :: r in rows ==> r in u;
    InsertKeepsWritten(kind, existing, rows, items, p, id);
    InsertKeepsCreated(kind, existing, rows, items, p, id);
  }

  lemma PatchKeepsSnapshot<I(!new), D(!new)>(kind: Kind<I, D>, existing: seq<Row<D>>, rows: seq<Row<D>>, k: nat, p: I)
    requires Coherent(kind) && KeepsSnapshot(kind, existing, rows) && UniqueIds(rows)
    requires k < |rows| && kind.docSlug(rows[k].doc) == kind.inputSlug(p)
    ensures KeepsSnapshot(kind, existing, Updated(rows, rows[k].id, PatchWith(kind, p)))
  {
    var u := Updated(rows, rows[k].id, PatchWith(kind, p));
    assert u[k].doc == kind.patch(rows[k].doc, p);
    forall m | 0 <= m < |rows| && m != k ensures u[m] == rows[m] {
      assert rows[m].id != rows[k].id;
    }
  }

  lemma PatchKeepsNewRows<I(!new), D(!new)>(kind: Kind<I, D>, existing: seq<Row<D>>, rows: seq<Row<D>>,
                                            seen: set<string>, id: nat, p: I)
    requires Coherent(kind) && NewRowsStamped(kind, existing, rows, seen)
    ensures NewRowsStamped(kind, existing, Updated(rows, id, PatchWith(kind, p)), seen + {kind.inputSlug(p)})
  {
    var u := Updated(rows, id, PatchWith(kind, p));
    forall k | |existing| <= k < |u|
      ensures kind.docSlug(u[k].doc) in seen + {kind.inputSlug(p)} && kind.stamped(u[k].doc) && u[k].id !in Ids(existing)
    {
      if rows[k].id == id {
        assert u[k].doc == kind.patch(rows[k].doc, p);
      }
    }
  }

  lemma PatchKeepsCover<I(!new), D(!new)>(kind: Kind<I, D>, rows: seq<Row<D>>, seen: set<string>, k: nat, p: I)
    requires Coherent(kind) && UniqueIds(rows) && k < |rows| && kind.docSlug(rows[k].doc) == kind.inputSlug(p)
    requires seen <= Slugs(kind, rows)
    ensures seen + {kind.inputSlug(p)} <= Slugs(kind, Updated(rows, rows[k].id, PatchWith(kind, p)))
  {
    var u := Updated(rows, rows[k].id, PatchWith(kind, p));
    assert u[k].doc == kind.patch(rows[k].doc, p);
    assert u[k] in u;
    forall s | s in seen ensures s in Slugs(kind, u) {
      var r :| r in rows && kind.docSlug(r.doc) == s;
      var m :| 0 <= m < |rows| && rows[m] == r;
      assert u[m] in u;
    }
  }

  lemma PatchKeepsWritten<I(!new), D(!new)>(kind: Kind<I, D>, existing: seq<Row<D>>, rows: seq<Row<D>>, items: seq<I>, k0: nat, p: I)
    requires UniqueIds(rows) && SnapshotWritten(kind, existing, rows, items)
    requires k0 < |existing| && k0 == LastIndexWithSlug(kind, existing, kind.inputSlug(p))
    ensures SnapshotWritten(kind, existing, Updated(rows, rows[k0].id, PatchWith(kind, p)), items + [p])
  {
    var u := Updated(rows, rows[k0].id, PatchWith(kind, p));
    forall k | 0 <= k < |existing| ensures WrittenAt(kind, existing, u, items + [p], k) {
      var s := kind.docSlug(existing[k].doc);
      PatchAllSnoc(kind, existing[k].doc, items, p, s);
      if k == k0 {
        assert WrittenAt(kind, existing, rows, items, k);
        assert u[k].doc == kind.patch(rows[k].doc, p);
      } else {
        assert rows[k].id != rows[k0].id;
        assert u[k] == rows[k];
        assert WrittenAt(kind, existing, rows, items, k);
      }
    }
  }

  lemma PatchKeepsCreated<I, D>(kind: Kind<I, D>, existing: seq<Row<D>>, rows: seq<Row<D>>, items: seq<I>, id: nat, p: I)
    requires NewRowsCreated(kind, existing, rows, items) && kind.inputSlug(p) in Slugs(kind, existing)
    requires forall k :: |existing| <= k < |rows| ==> rows[k].id != id
    ensures NewRowsCreated(kind, existing, Updated(rows, id, PatchWith(kind, p)), items + [p])
  {
    CreatedSnoc(kind, items, p, Slugs(kind, existing));
  }

  lemma PatchKeepsUpserted<I(!new), D(!new)>(kind: Kind<I, D>, existing: seq<Row<D>>, rows: seq<Row<D>>,
                                                 items: seq<I>, k: nat, p: I)
    requires Coherent(kind) && UniqueIds(rows) && Upserted(kind, existing, rows, items)
    requires k < |existing| && k == LastIndexWithSlug(kind, existing, kind.inputSlug(p))
    ensures existing[k].id in Ids(rows)
    ensures Upserted(kind, existing, Updated(rows, existing[k].id, PatchWith(kind, p)), items + [p])
  {
    assert rows[k] in rows;
    assert existing[k] in existing;
    InputSlugsSnoc(kind, items, p);
    PatchKeepsSnapshot(kind, existing, rows, k, p);
    PatchKeepsNewRows(kind, existing, rows, InputSlugs(kind, items), existing[k].id, p);
    PatchKeepsCover(kind, rows, InputSlugs(kind, items), k, p);
    PatchKeepsWritten(kind, existing, rows, items, k, p);
    PatchKeepsCreated(kind, existing, rows, items, existing[k].id, p);
  }

  /**
   * One step of the upsert loop: patch the snapshot row that the item's
   * slug maps to (the last snapshot row with it), or append the item
   * created under the next id. `ok` is false when the patch hits an
   * id that is no longer stored (the runtime throws). Whatever the table
   * held, the step only adds a fresh id; on a table the loop has only
   * upserted into, it cannot fail.
   */
  method UpsertStep<I(==, !new), D(!new)>(db: Table<D>, kind: Kind<I, D>, existing: seq<Row<D>>, ghost items: seq<I>, p: I)
    returns (ok: bool, patched: bool)
    requires db.Valid() && Coherent(kind)
    modifies db
    ensures db.Valid() && db.nextId >= old(db.nextId)
    ensures Ids(db.rows) <= Ids(old(db.rows)) + {old(db.nextId)}
    ensures patched <==> kind.inputSlug(p) in Slugs(kind, existing)
    ensures patched ==>
              db.rows == Updated(old(db.rows), existing[LastIndexWithSlug(kind, existing, kind.inputSlug(p))].id, PatchWith(kind, p))
    ensures !patched ==> ok && db.rows == old(db.rows) + [Row(old(db.nextId), kind.create(p))]
    ensures Upserted(kind, existing, old(db.rows), items) ==>
              ok && Upserted(kind, existing, db.rows, items + [p])
  {
    var k := LastIndexWithSlug(kind, existing, kind.inputSlug(p));
    patched := k >= 0;
    ghost var before := db.rows;
    if patched {
      if Upserted(kind, existing, before, items) {
        PatchKeepsUpserted(kind, existing, before, items, k, p);
      }
      ok := db.Patch(existing[k].id, PatchWith(kind, p));
    } else {
      var id := db.Insert(kind.create(p));
      ok := true;
      if Upserted(kind, existing, before, items) {
        InsertKeepsUpserted(kind, existing, before, items, p, id);
      }
      assert forall r :: r in db.rows ==> r in before || r == Row(id, kind.create(p));
    }
  }

  /**
   * The upsert loop: every item patched onto the stored document with its
   * slug, or inserted. Afterwards the last snapshot row with an incoming
   * slug holds the patch of the last item with that slug, the other
   * snapshot rows are as stored, and the inserted documents follow.
   */
  method UpsertAll<I(==, !new), D(!new)>(db: Table<D>, kind: Kind<I, D>, existing: seq<Row<D>>, incoming: seq<I>)
    returns (created: nat, updated: nat)
    requires db.Valid() && Coherent(kind) && db.rows == existing
    modifies db
    ensures db.Valid()
    ensures Upserted(kind, existing, db.rows, incoming)
    ensures created + updated == |incoming| && updated == KnownCount(kind, incoming, Slugs(kind, existing))
  {
    created, updated := 0, 0;
    var i := 0;
    UpsertedStart(kind, existing, incoming[..0]);
    while i < |incoming|
      invariant 0 <= i <= |incoming|
      invariant db.Valid()
      invariant Upserted(kind, existing, db.rows, incoming[..i])
      invariant created + updated == i && updated == KnownCount(kind, incoming[..i], Slugs(kind, existing))
    {
      var p := incoming[i];
      PrefixSnoc(incoming, i);
      KnownCountSnoc(kind, incoming[..i], p, Slugs(kind, existing));
      var ok, patched := UpsertStep(db, kind, existing, incoming[..i], p);
      if patched {
        updated := updated + 1;
      } else {
        created := created + 1;
      }
      i := i + 1;
    }
    assert incoming[..i] == incoming;
  }

  // ---------------------------------------------------------------------
  // The delete loop

  /** A snapshot id is not stale before its own position (ids are unique). */
  lemma NotYetStale<I, D>(kind: Kind<I, D>, existing: seq<Row<D>>, j: nat, incoming: set<string>)
    requires UniqueIds(existing) && j < |existing|
    ensures existing[j].id !in StaleIds(kind, existing[..j], incoming)
  {
    forall r | r in existing[..j] ensures r.id != existing[j].id {
      var m :| 0 <= m < j && existing[..j][m] == r;
    }
  }

  /** `rows` are the rows of `before` whose id is not in `gone`. */
  ghost predicate Survivors<D>(rows: seq<Row<D>>, before: seq<Row<D>>, gone: set<nat>) {
    (forall r :: r in rows ==> r in before && r.id !in gone) &&
    (forall r :: r in before && r.id !in gone ==> r in rows)
  }

  lemma SurvivorIds<D>(rows: seq<Row<D>>, before: seq<Row<D>>, gone: set<nat>)
    requires Survivors(rows, before, gone)
    ensures Ids(rows) == Ids(before) - gone
  {
    forall n | n in Ids(rows) ensures n in Ids(before) - gone {
      var r :| r in rows && r.id == n;
    }
    forall n | n in Ids(before) - gone ensures n in Ids(rows) {
      var r :| r in before && r.id == n;
    }
  }

  lemma RemovedSurvivors<D>(rows: seq<Row<D>>, before: seq<Row<D>>, gone: set<nat>, id: nat)
    requires Survivors(rows, before, gone)
    ensures Survivors(Removed(rows, id), before, gone + {id})
  {
    var u := Removed(rows, id);
    forall r | r in u ensures r in before && r.id !in gone + {id} {
      var m :| 0 <= m < |u| && u[m] == r;
    }
    forall r | r in before && r.id !in gone + {id} ensures r in u {
      var m :| 0 <= m < |rows| && rows[m] == r;
    }
  }

  /**
   * The delete loop: delete every snapshot row whose slug is not incoming.
   * `ok` is false when a delete hits an id that is no longer stored (the
   * runtime throws), which happens exactly when some stale id is missing.
   */
  method DeletePass<I, D>(db: Table<D>, kind: Kind<I, D>, existing: seq<Row<D>>, incoming: set<string>)
    returns (ok: bool, deleted: nat)
    requires db.Valid() && UniqueIds(existing)
    modifies db
    ensures db.Valid() && db.nextId == old(db.nextId)
    ensures ok <==> StaleIds(kind, existing, incoming) <= Ids(old(db.rows))
    ensures ok ==> deleted == StaleCount(kind, existing, incoming)
    ensures ok ==> Survivors(db.rows, old(db.rows), StaleIds(kind, existing, incoming))
    ensures StaleIds(kind, existing, incoming) == {} ==> db.rows == old(db.rows)
  {
    deleted := 0;
    ghost var gone: set<nat> := {};
    var j := 0;
    while j < |existing|
      invariant 0 <= j <= |existing|
      invariant db.Valid() && db.nextId == old(db.nextId)
      invariant gone == StaleIds(kind, existing[..j], incoming) && gone <= Ids(old(db.rows))
      invariant Survivors(db.rows, old(db.rows), gone)
      invariant deleted == StaleCount(kind, existing[..j], incoming)
      invariant gone == {} ==> db.rows == old(db.rows)
    {
      var e := existing[j];
      assert existing[..j + 1][..j] == existing[..j];
      assert existing[..j + 1] == existing[..j] + [e];
      StaleIdsSnoc(kind, existing[..j], e, incoming);
      if kind.docSlug(e.doc) !in incoming {
        NotYetStale(kind, existing, j, incoming);
        assert e in existing;
        SurvivorIds(db.rows, old(db.rows), gone);
        RemovedSurvivors(db.rows, old(db.rows), gone, e.id);
        var done := db.Delete(e.id);
        if !done {
          assert e.id in StaleIds(kind, existing, incoming) - Ids(old(db.rows));
          return false, deleted;
        }
        deleted := deleted + 1;
        gone := gone + {e.id};
      }
      j := j + 1;
    }
    assert existing[..j] == existing;
    ok := true;
  }

  // ---------------------------------------------------------------------
  // The two syncs

  /**
   * What a sync leaves of snapshot row `k`: it is deleted when no item
   * carries its slug; the last snapshot row with a slug that some item
   * carries holds, under its id, its stored document patched in order with
   * every such item; any other row is kept as stored.
   */
  ghost predicate SyncedAt<I(!new), D(!new)>(kind: Kind<I, D>, existing: seq<Row<D>>, final: seq<Row<D>>, items: seq<I>, k: nat)
    requires k < |existing|
  {
    var s := kind.docSlug(existing[k].doc);
    if s !in InputSlugs(kind, items) then existing[k].id !in Ids(final)
    else if LastIndexWithSlug(kind, existing, s) == k then Row(existing[k].id, PatchAll(kind, existing[k].doc, items, s)) in final
    else existing[k] in final
  }

  /**
   * The table a sync of `items` leaves after `before`: the stored slugs are
   * exactly the incoming ones; every stored row with an incoming slug keeps
   * its id; each snapshot row is deleted, patched or kept as `SyncedAt`
   * says; the added rows are the documents created from the items whose
   * slug was not stored, one for each; the added rows are stamped, and so
   * is every row when the stored slugs were unique.
   */
  ghost predicate SyncedTable<I(!new), D(!new)>(kind: Kind<I, D>, before: seq<Row<D>>, after: seq<Row<D>>, items: seq<I>) {
    Slugs(kind, after) == InputSlugs(kind, items) &&
    (forall r :: r in before && kind.docSlug(r.doc) in InputSlugs(kind, items) ==> r.id in Ids(after)) &&
    (forall k :: 0 <= k < |before| ==> SyncedAt(kind, before, after, items, k)) &&
    (forall r :: r in after && r.id !in Ids(before) ==>
       exists p :: p in items && kind.inputSlug(p) !in Slugs(kind, before) && r.doc == kind.create(p)) &&
    (forall p :: p in items && kind.inputSlug(p) !in Slugs(kind, before) ==>
       exists r :: r in after && r.id !in Ids(before) && r.doc == kind.create(p)) &&
    (forall r :: r in after && r.id !in Ids(before) ==> kind.stamped(r.doc)) &&
    (UniqueSlugs(kind, before) ==> forall r :: r in after ==> kind.stamped(r.doc))
  }

  /**
   * Upsert every item, then delete every stale snapshot row, leaving the
   * table `SyncedTable` describes.
   */
  method Sync<I(==,!new), D(!new)>(db: Table<D>, kind: Kind<I, D>, incoming: seq<I>) returns (counts: SyncCounts)
    requires db.Valid() && Coherent(kind)
    modifies db
    ensures db.Valid()
    ensures counts.created + counts.updated == |incoming|
    ensures counts.updated == KnownCount(kind, incoming, Slugs(kind, old(db.rows)))
    ensures counts.deleted == StaleCount(kind, old(db.rows), InputSlugs(kind, incoming))
    ensures SyncedTable(kind, old(db.rows), db.rows, incoming)
  {
    var existing := db.rows;
    var incomingSlugs := InputSlugs(kind, incoming);
    var created, updated := UpsertAll(db, kind, existing, incoming);
    ghost var upserted := db.rows;
    assert StaleIds(kind, existing, incomingSlugs) <= Ids(upserted) by {
      forall n | n in StaleIds(kind, existing, incomingSlugs) ensures n in Ids(upserted) {
        var r :| r in existing && r.id == n;
        var m :| 0 <= m < |existing| && existing[m] == r;
        assert upserted[m] in upserted;
      }
    }
    var ok, deleted := DeletePass(db, kind, existing, incomingSlugs);
    counts := SyncCounts(created, updated, deleted);
    SyncTable(kind, existing, upserted, db.rows, incoming);
  }

  /** A snapshot position's id is stale exactly when its slug is not incoming. */
  lemma StaleAt<I, D>(kind: Kind<I, D>, existing: seq<Row<D>>, slugs: set<string>, m: nat)
    requires UniqueIds(existing) && m < |existing|
    ensures existing[m].id in StaleIds(kind, existing, slugs) <==> kind.docSlug(existing[m].doc) !in slugs
  {
    assert existing[m] in existing;
    forall r | r in existing && r.id == existing[m].id ensures r == existing[m] {
      var q :| 0 <= q < |existing| && existing[q] == r;
    }
  }

  lemma SyncSlugs<I(!new), D(!new)>(kind: Kind<I, D>, existing: seq<Row<D>>, upserted: seq<Row<D>>, final: seq<Row<D>>,
                            items: seq<I>)
    requires UniqueIds(existing)
    requires Upserted(kind, existing, upserted, items)
    requires Survivors(final, upserted, StaleIds(kind, existing, InputSlugs(kind, items)))
    ensures Slugs(kind, final) == InputSlugs(kind, items)
    ensures forall r :: r in existing && kind.docSlug(r.doc) in InputSlugs(kind, items) ==> r.id in Ids(final)
  {
    var slugs := InputSlugs(kind, items);
    forall r | r in final ensures kind.docSlug(r.doc) in slugs {
      var m :| 0 <= m < |upserted| && upserted[m] == r;
      if m < |existing| {
        StaleAt(kind, existing, slugs, m);
      }
    }
    forall s | s in slugs ensures s in Slugs(kind, final) {
      var r :| r in upserted && kind.docSlug(r.doc) == s;
      var m :| 0 <= m < |upserted| && upserted[m] == r;
      if m < |existing| {
        StaleAt(kind, existing, slugs, m);
      }
      assert r in final;
    }
    forall r | r in existing && kind.docSlug(r.doc) in slugs ensures r.id in Ids(final) {
      var m :| 0 <= m < |existing| && existing[m] == r;
      StaleAt(kind, existing, slugs, m);
      assert upserted[m] in upserted;
      assert upserted[m] in final;
    }
  }

  /** With unique stored slugs every snapshot row that survives was patched, so every row is stamped. */
  lemma SyncStamps<I(!new), D(!new)>(kind: Kind<I, D>, existing: seq<Row<D>>, upserted: seq<Row<D>>, final: seq<Row<D>>,
                                         items: seq<I>)
    requires Coherent(kind) && UniqueIds(existing)
    requires Upserted(kind, existing, upserted, items)
    requires Survivors(final, upserted, StaleIds(kind, existing, InputSlugs(kind, items)))
    ensures forall r :: r in final && r.id !in Ids(existing) ==> kind.stamped(r.doc)
    ensures UniqueSlugs(kind, existing) ==> forall r :: r in final ==> kind.stamped(r.doc)
  {
    var slugs := InputSlugs(kind, items);
    forall r | r in final && r.id !in Ids(existing) ensures kind.stamped(r.doc) {
      var m :| 0 <= m < |upserted| && upserted[m] == r;
    }
    if UniqueSlugs(kind, existing) {
      forall r | r in final ensures kind.stamped(r.doc) {
        var m :| 0 <= m < |upserted| && upserted[m] == r;
        if m < |existing| {
          var s := kind.docSlug(existing[m].doc);
          StaleAt(kind, existing, slugs, m);
          assert WrittenAt(kind, existing, upserted, items, m);
          assert LastIndexWithSlug(kind, existing, s) == m;
        }
      }
    }
  }

  lemma SyncSnapshotRows<I(!new), D(!new)>(kind: Kind<I, D>, existing: seq<Row<D>>, upserted: seq<Row<D>>, final: seq<Row<D>>,
                                   items: seq<I>)
    requires UniqueIds(existing)
    requires Upserted(kind, existing, upserted, items)
    requires Survivors(final, upserted, StaleIds(kind, existing, InputSlugs(kind, items)))
    ensures forall k :: 0 <= k < |existing| ==> SyncedAt(kind, existing, final, items, k)
  {
    var slugs := InputSlugs(kind, items);
    SurvivorIds(final, upserted, StaleIds(kind, existing, slugs));
    forall k | 0 <= k < |existing| ensures SyncedAt(kind, existing, final, items, k) {
      StaleAt(kind, existing, slugs, k);
      assert WrittenAt(kind, existing, upserted, items, k);
      assert upserted[k] in upserted;
      if LastIndexWithSlug(kind, existing, kind.docSlug(existing[k].doc)) == k {
        assert upserted[k] == Row(existing[k].id, PatchAll(kind, existing[k].doc, items, kind.docSlug(existing[k].doc)));
      }
    }
  }

  lemma SyncNewRows<I(!new), D(!new)>(kind: Kind<I, D>, existing: seq<Row<D>>, upserted: seq<Row<D>>, final: seq<Row<D>>,
                              items: seq<I>)
    requires UniqueIds(existing)
    requires Upserted(kind, existing, upserted, items)
    requires Survivors(final, upserted, StaleIds(kind, existing, InputSlugs(kind, items)))
    ensures forall r :: r in final && r.id !in Ids(existing) ==>
              exists p :: p in items && kind.inputSlug(p) !in Slugs(kind, existing) && r.doc == kind.create(p)
    ensures forall p :: p in items && kind.inputSlug(p) !in Slugs(kind, existing) ==>
              exists r :: r in final && r.id !in Ids(existing) && r.doc == kind.create(p)
  {
    var known := Slugs(kind, existing);
    var docs := Created(kind, items, known);
    forall r | r in final && r.id !in Ids(existing)
      ensures exists p :: p in items && kind.inputSlug(p) !in known && r.doc == kind.create(p)
    {
      var m :| 0 <= m < |upserted| && upserted[m] == r;
      assert r.doc == docs[m - |existing|];
      CreatedMembers(kind, items, known, r.doc);
    }
    forall p | p in items && kind.inputSlug(p) !in known
      ensures exists r :: r in final && r.id !in Ids(existing) && r.doc == kind.create(p)
    {
      CreatedMembers(kind, items, known, kind.create(p));
      var m :| 0 <= m < |docs| && docs[m] == kind.create(p);
      var r := upserted[|existing| + m];
      assert r in upserted;
      assert r.id !in StaleIds(kind, existing, InputSlugs(kind, items));
      assert r in final;
    }
  }

  /** Deleting the stale snapshot rows from what the upsert loop left gives the synced table. */
  lemma SyncTable<I(!new), D(!new)>(kind: Kind<I, D>, existing: seq<Row<D>>, upserted: seq<Row<D>>, final: seq<Row<D>>,
                                    items: seq<I>)
    requires Coherent(kind) && UniqueIds(existing)
    requires Upserted(kind, existing, upserted, items)
    requires Survivors(final, upserted, StaleIds(kind, existing, InputSlugs(kind, items)))
    ensures SyncedTable(kind, existing, final, items)
  {
    SyncSlugs(kind, existing, upserted, final, items);
    SyncStamps(kind, existing, upserted, final, items);
    SyncSnapshotRows(kind, existing, upserted, final, items);
    SyncNewRows(kind, existing, upserted, final, items);
  }

  /**
   * One pass of the nested loop: upsert one item, then scan the whole
   * snapshot and delete its stale rows. The first pass (`first`) meets every
   * stale row still stored; a later pass finds them gone, so it fails
   * (`ok` false: the runtime throws) exactly when something is stale.
   */
  method NestedStep<I(==, !new), D(!new)>(db: Table<D>, kind: Kind<I, D>, existing: seq<Row<D>>, incoming: set<string>,
                                          ghost items: seq<I>, ghost first: bool, p: I)
    returns (ok: bool, patched: bool, deleted: nat, ghost upserted: seq<Row<D>>)
    requires db.Valid() && Coherent(kind) && UniqueIds(existing)
    requires forall k :: 0 <= k < |existing| ==> existing[k].id < db.nextId
    requires first ==> db.rows == existing && items == []
    requires !first ==> StaleIds(kind, existing, incoming) !! Ids(db.rows)
    requires !first && StaleIds(kind, existing, incoming) == {} ==> Upserted(kind, existing, db.rows, items)
    modifies db
    ensures db.Valid()
    ensures forall k :: 0 <= k < |existing| ==> existing[k].id < db.nextId
    ensures ok <==> first || StaleIds(kind, existing, incoming) == {}
    ensures ok ==> StaleIds(kind, existing, incoming) !! Ids(db.rows)
    ensures ok ==> (patched <==> kind.inputSlug(p) in Slugs(kind, existing))
    ensures ok ==> deleted == StaleCount(kind, existing, incoming)
    ensures ok ==> upserted == if patched
                               then Updated(old(db.rows), existing[LastIndexWithSlug(kind, existing, kind.inputSlug(p))].id, PatchWith(kind, p))
                               else old(db.rows) + [Row(old(db.nextId), kind.create(p))]
    ensures ok ==> Upserted(kind, existing, upserted, items + [p])
    ensures ok ==> Survivors(db.rows, upserted, StaleIds(kind, existing, incoming))
    ensures ok && StaleIds(kind, existing, incoming) == {} ==> db.rows == upserted
  {
    ghost var staleIds := StaleIds(kind, existing, incoming);
    ghost var before := db.rows;
    if first {
      UpsertedStart(kind, existing, items);
    }
    var stepped;
    stepped, patched := UpsertStep(db, kind, existing, items, p);
    upserted := db.rows;
    if !stepped {
      return false, patched, 0, upserted;
    }
    // Only a fresh id can have appeared, so a stale id that was gone stays gone.
    assert !first ==> staleIds !! Ids(db.rows) by {
      if !first {
        forall n | n in staleIds ensures n !in Ids(db.rows) {
          var r :| r in existing && r.id == n;
          var m :| 0 <= m < |existing| && existing[m] == r;
        }
      }
    }
    if first {
      forall n | n in staleIds ensures n in Ids(db.rows) {
        var r :| r in existing && r.id == n;
        var m :| 0 <= m < |existing| && existing[m] == r;
        assert db.rows[m] in db.rows;
      }
    }
    StaleCountZero(kind, existing, incoming);
    ok, deleted := DeletePass(db, kind, existing, incoming);
    if ok {
      SurvivorIds(db.rows, upserted, staleIds);
    }
  }

  /**
   * The state of the nested loop after `i` items: before the first item the
   * table is the snapshot; after it the table is what the upsert loop
   * leaves after the items (`shadow`) less the stale rows; a second item is
   * only reached when nothing is stale, so `deleted` is the stale count
   * from the first pass on.
   */
  ghost predicate NestedState<I(!new), D(!new)>(db: Table<D>, kind: Kind<I, D>, existing: seq<Row<D>>, incoming: set<string>,
                                                     items: seq<I>, shadow: seq<Row<D>>, i: nat,
                                                     created: nat, updated: nat, deleted: nat)
    reads db
  {
    db.Valid() && UniqueIds(existing) && |items| == i &&
    (forall k :: 0 <= k < |existing| ==> existing[k].id < db.nextId) &&
    (i == 0 ==> db.rows == existing) &&
    (i >= 1 ==> StaleIds(kind, existing, incoming) !! Ids(db.rows)) &&
    (i >= 1 ==> Upserted(kind, existing, shadow, items) && Survivors(db.rows, shadow, StaleIds(kind, existing, incoming))) &&
    (i >= 1 && StaleIds(kind, existing, incoming) == {} ==> db.rows == shadow) &&
    (i >= 2 ==> StaleIds(kind, existing, incoming) == {}) &&
    created + updated == i && deleted == (if i == 0 then 0 else StaleCount(kind, existing, incoming))
  }

  /** One pass of the nested loop with its counters: it fails exactly on a later pass with something stale. */
  method NestedPass<I(==, !new), D(!new)>(db: Table<D>, kind: Kind<I, D>, existing: seq<Row<D>>, incoming: set<string>,
                                          ghost items: seq<I>, ghost shadow: seq<Row<D>>, i: nat,
                                          created: nat, updated: nat, deleted: nat, p: I)
    returns (ok: bool, created': nat, updated': nat, deleted': nat, ghost shadow': seq<Row<D>>)
    requires Coherent(kind)
    requires NestedState(db, kind, existing, incoming, items, shadow, i, created, updated, deleted)
    modifies db
    ensures ok <==> i == 0 || StaleIds(kind, existing, incoming) == {}
    ensures ok ==> NestedState(db, kind, existing, incoming, items + [p], shadow', i + 1, created', updated', deleted')
    ensures db.Valid()
    ensures UniqueIds(existing) && forall k :: 0 <= k < |existing| ==> existing[k].id < db.nextId
  {
    var patched, d;
    ok, patched, d, shadow' := NestedStep(db, kind, existing, incoming, items, i == 0, p);
    created', updated', deleted' := created, updated, deleted;
    if ok {
      StaleCountZero(kind, existing, incoming);
      if patched {
        updated' := updated + 1;
      } else {
        created' := created + 1;
      }
      deleted' := deleted + d;
    }
  }

  /**
   * The variant whose delete loop sits inside the per-item loop: after
   * every upsert the whole snapshot is scanned again and every stale row
   * deleted. The first scan deletes the stale rows; the second finds them
   * gone, its delete throws and the mutation is rolled back. So the sync
   * succeeds exactly when there is at most one item or nothing is stale;
   * then `deleted` is the number of items times the number of stale rows,
   * and the table is the one `Sync` leaves (unchanged for no items).
   */
  method SyncNested<I(==,!new), D(!new)>(db: Table<D>, kind: Kind<I, D>, incoming: seq<I>) returns (result: Result<SyncCounts>)
    requires db.Valid() && Coherent(kind)
    modifies db
    ensures db.Valid()
    ensures result.Ok? <==> |incoming| <= 1 || StaleCount(kind, old(db.rows), InputSlugs(kind, incoming)) == 0
    ensures result.Err? ==> db.rows == old(db.rows)
    ensures result.Ok? ==> result.value.created + result.value.updated == |incoming|
    ensures result.Ok? ==> result.value.deleted == |incoming| * StaleCount(kind, old(db.rows), InputSlugs(kind, incoming))
    ensures incoming == [] ==> result == Ok(SyncCounts(0, 0, 0)) && db.rows == old(db.rows)
    ensures result.Ok? && incoming != [] ==> SyncedTable(kind, old(db.rows), db.rows, incoming)
  {
    var existing := db.rows;
    var incomingSlugs := InputSlugs(kind, incoming);
    StaleCountZero(kind, existing, incomingSlugs);
    var created, updated, deleted := 0, 0, 0;
    var i := 0;
    ghost var shadow := existing;
    while i < |incoming|
      invariant 0 <= i <= |incoming|
      invariant NestedState(db, kind, existing, incomingSlugs, incoming[..i], shadow, i, created, updated, deleted)
    {
      var ok;
      ok, created, updated, deleted, shadow :=
        NestedPass(db, kind, existing, incomingSlugs, incoming[..i], shadow, i, created, updated, deleted, incoming[i]);
      if !ok {
        db.Rollback(existing);
        return Err("Delete on nonexistent document ID");
      }
      PrefixSnoc(incoming, i);
      i := i + 1;
    }
    assert incoming[..i] == incoming;
    if i >= 1 {
      SyncTable(kind, existing, shadow, db.rows, incoming);
    }
    result := Ok(SyncCounts(created, updated, deleted));
  }
}
