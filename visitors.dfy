/**
 * The `visitor` table: one row per browser session, refreshed on every
 * page view, and the lookup by session id.
 */
module Visitors {
  import opened Wrappers
  import opened Database

  datatype Device = Mobile | Desktop

  /** The page-view metadata a client reports; only `currentPath` is required. */
  datatype Metadata = Metadata(
    currentPath: string, ip: Option<string>, country: Option<string>, city: Option<string>, device: Option<Device>)

  /** A stored visitor; `lastSeen` is in milliseconds. */
  datatype Visitor = Visitor(sessionId: string, meta: Metadata, lastSeen: int)

  const NotUniqueMessage := "unique() query returned more than one result"

  /** The rows of one session, in creation order. */
  function SessionRows(rows: seq<Row<Visitor>>, sessionId: string): (r: seq<Row<Visitor>>)
    ensures |r| <= |rows|
    ensures forall x :: x in r <==> x in rows && x.doc.sessionId == sessionId
    ensures (forall x :: x in rows ==> x.doc.sessionId != sessionId) ==> r == []
    decreases |rows|
  {
    if rows == [] then []
    else
      assert rows == [rows[0]] + rows[1..];
      (if rows[0].doc.sessionId == sessionId then [rows[0]] else []) + SessionRows(rows[1..], sessionId)
  }

  /** Every session has at most one row. */
  predicate OneRowPerSession(rows: seq<Row<Visitor>>) {
    forall i, j :: 0 <= i < j < |rows| ==> rows[i].doc.sessionId != rows[j].doc.sessionId
  }

  /**
   * `getVisitor`: the row of the session, none, or the error `.unique()`
   * throws when the session has several rows.
   */
  function GetVisitor(rows: seq<Row<Visitor>>, sessionId: string): (r: Result<Option<Row<Visitor>>>)
    ensures r.Err? <==> |SessionRows(rows, sessionId)| > 1
    ensures r == Ok(None) <==> forall x :: x in rows ==> x.doc.sessionId != sessionId
    ensures r.Ok? && r.value.Some? ==> r.value.value in rows && r.value.value.doc.sessionId == sessionId
    ensures r.Ok? && r.value.Some? ==> forall x :: x in rows && x.doc.sessionId == sessionId ==> x == r.value.value
  {
    var mine := SessionRows(rows, sessionId);
    if |mine| == 0 then
      assert forall x :: x in rows && x.doc.sessionId == sessionId ==> x in mine;
      Ok(None)
    else if |mine| == 1 then
      assert mine[0] in mine;
      Ok(Some(mine[0]))
    else
      assert mine[0] in mine;
      Err(NotUniqueMessage)
  }

  /** With one row per session, the lookup never throws. */
  lemma {:induction false} OneRowNoError(rows: seq<Row<Visitor>>, sessionId: string)
    requires OneRowPerSession(rows)
    ensures |SessionRows(rows, sessionId)| <= 1
    decreases |rows|
  {
    if rows != [] {
      OneRowNoError(rows[1..], sessionId);
      if rows[0].doc.sessionId == sessionId {
        forall x | x in rows[1..] ensures x.doc.sessionId != sessionId {
          var k :| 0 <= k < |rows| - 1 && rows[1..][k] == x;
          assert rows[k + 1] == x;
        }
      }
    }
  }

  /** The patch `{...args, lastSeen: now}`: the fields the client sent replace the stored ones, absent ones stay. */
  function Refreshed(v: Visitor, args: Metadata, now: int): (r: Visitor)
    ensures r.sessionId == v.sessionId && r.lastSeen == now && r.meta.currentPath == args.currentPath
    ensures r.meta.ip == (if args.ip.Some? then args.ip else v.meta.ip)
    ensures r.meta.country == (if args.country.Some? then args.country else v.meta.country)
    ensures r.meta.city == (if args.city.Some? then args.city else v.meta.city)
    ensures r.meta.device == (if args.device.Some? then args.device else v.meta.device)
  {
    var m := v.meta;
    Visitor(v.sessionId,
            Metadata(args.currentPath,
                     if args.ip.Some? then args.ip else m.ip,
                     if args.country.Some? then args.country else m.country,
                     if args.city.Some? then args.city else m.city,
                     if args.device.Some? then args.device else m.device),
            now)
  }

  /** Refreshing a visitor with what it already holds changes only `lastSeen`. */
  lemma RefreshedSame(v: Visitor, now: int)
    ensures Refreshed(v, v.meta, now) == v.(lastSeen := now)
  {
  }

  function RefreshWith(args: Metadata, now: int): Visitor -> Visitor {
    (v: Visitor) => Refreshed(v, args, now)
  }

  /** Refreshing one row keeps every row's session, so one row per session is kept. */
  lemma RefreshKeepsSessions(rows: seq<Row<Visitor>>, id: nat, args: Metadata, now: int)
    ensures forall i :: 0 <= i < |rows| ==> Updated(rows, id, RefreshWith(args, now))[i].doc.sessionId == rows[i].doc.sessionId
    ensures OneRowPerSession(rows) ==> OneRowPerSession(Updated(rows, id, RefreshWith(args, now)))
  {
    var u := Updated(rows, id, RefreshWith(args, now));
    forall i | 0 <= i < |rows| ensures u[i].doc.sessionId == rows[i].doc.sessionId {
      if rows[i].id == id {
        assert u[i].doc == Refreshed(rows[i].doc, args, now);
      }
    }
  }

  /** A row for a session that has none keeps one row per session. */
  lemma InsertNewSession(rows: seq<Row<Visitor>>, row: Row<Visitor>)
    requires OneRowPerSession(rows)
    requires forall x :: x in rows ==> x.doc.sessionId != row.doc.sessionId
    ensures OneRowPerSession(rows + [row])
  {
    var r := rows + [row];
    forall i, j | 0 <= i < j < |r| ensures r[i].doc.sessionId != r[j].doc.sessionId {
      assert r[i] == rows[i];
      if j == |rows| {
        assert rows[i] in rows;
      } else {
        assert r[j] == rows[j];
      }
    }
  }

  /**
   * `updateVisitor`: the session's row is refreshed and its id returned, or,
   * for a session without a row, a new row is inserted and its id
   * returned. Rows of other sessions are untouched, and one row per
   * session stays one row per session.
   */
  method UpdateVisitor(db: Table<Visitor>, sessionId: string, args: Metadata, now: int) returns (result: Result<nat>)
    requires db.Valid()
    modifies db
    ensures db.Valid()
    ensures result.Err? <==> |SessionRows(old(db.rows), sessionId)| > 1
    ensures result.Err? ==> db.rows == old(db.rows)
    ensures result.Ok? && GetVisitor(old(db.rows), sessionId).value.Some? ==>
              result.value == GetVisitor(old(db.rows), sessionId).value.value.id &&
              db.rows == Updated(old(db.rows), result.value, RefreshWith(args, now))
    ensures result.Ok? && GetVisitor(old(db.rows), sessionId).value.None? ==>
              result.value !in Ids(old(db.rows)) &&
              db.rows == old(db.rows) + [Row(result.value, Visitor(sessionId, args, now))]
    ensures forall i :: 0 <= i < |old(db.rows)| && old(db.rows)[i].doc.sessionId != sessionId ==> db.rows[i] == old(db.rows)[i]
    ensures OneRowPerSession(old(db.rows)) ==> result.Ok? && OneRowPerSession(db.rows)
  {
    if OneRowPerSession(db.rows) {
      OneRowNoError(db.rows, sessionId);
    }
    var visitor := GetVisitor(db.rows, sessionId);
    if visitor.Err? {
      return Err(visitor.message);
    }
    match visitor.value
    case Some(row) =>
      assert forall i :: 0 <= i < |db.rows| && db.rows[i].id == row.id ==> db.rows[i] == row by {
        forall i | 0 <= i < |db.rows| && db.rows[i].id == row.id ensures db.rows[i] == row {
          var k :| 0 <= k < |db.rows| && db.rows[k] == row;
          assert k == i;
        }
      }
      RefreshKeepsSessions(db.rows, row.id, args, now);
      var ok := db.Patch(row.id, RefreshWith(args, now));
      result := Ok(row.id);
    case None =>
      if OneRowPerSession(db.rows) {
        InsertNewSession(db.rows, Row(db.nextId, Visitor(sessionId, args, now)));
      }
      var id := db.Insert(Visitor(sessionId, args, now));
      result := Ok(id);
  }
}
