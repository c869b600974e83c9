/** The relational sink (`write_to_rds`): table `peloton` keyed by
    `workout_id`, every row inserted with `ON CONFLICT DO NOTHING`, one
    commit after the whole batch. */
module Relational {
  import opened Wrappers
  import opened Normalize

  /** Committed rows of table `peloton`, by primary key. */
  type Table = map<string, Row>

  /** One INSERT: None when it raises. It raises when the row has no
      workout_id (the column was dropped, so the primary key would be NULL)
      or when the server refuses the row for a reason outside this model
      (`accepts`, standing for the column widths and types). A key already
      present is a conflict and leaves the table as it is. */
  function InsertRow(t: Table, row: Row, accepts: Row -> bool): Option<Table> {
    if row.workoutId.None? || !accepts(row) then None
    else if row.workoutId.value in t then Some(t)
    else Some(t[row.workoutId.value := row])
  }

  /** The insert loop; the first exception abandons the batch. */
  function InsertAll(t: Table, rows: seq<Row>, accepts: Row -> bool): Option<Table>
    decreases |rows|
  {
    if rows == [] then Some(t)
    else
      match InsertRow(t, rows[0], accepts)
      case None => None
      case Some(t1) => InsertAll(t1, rows[1..], accepts)
  }

  /** The whole write: with no table, the first INSERT raises. */
  function Upsert(tableExists: bool, t: Table, rows: seq<Row>, accepts: Row -> bool): Option<Table> {
    if !tableExists then (if rows == [] then Some(t) else None)
    else InsertAll(t, rows, accepts)
  }

  /** What is committed: the new table, or the old one when the batch raised. */
  function Committed(outcome: Option<Table>, before: Table): Table {
    match outcome
    case Some(t) => t
    case None => before
  }

  predicate Insertable(row: Row, accepts: Row -> bool) {
    row.workoutId.Some? && accepts(row)
  }

  /** Index i holds the first row of the batch with key k. */
  ghost predicate FirstWithKey(rows: seq<Row>, k: string, i: int) {
    0 <= i < |rows| && rows[i].workoutId == Some(k) &&
    forall j :: 0 <= j < i ==> rows[j].workoutId != Some(k)
  }

  ghost function Keys(rows: seq<Row>): set<string> {
    set i | 0 <= i < |rows| && rows[i].workoutId.Some? :: rows[i].workoutId.value
  }

  // ---- properties ----

  /** The batch is committed exactly when every row is insertable. */
  lemma {:induction false} InsertAllSucceedsIff(t: Table, rows: seq<Row>, accepts: Row -> bool)
    ensures InsertAll(t, rows, accepts).Some? <==> forall i :: 0 <= i < |rows| ==> Insertable(rows[i], accepts)
    decreases |rows|
  {
    if rows != [] {
      match InsertRow(t, rows[0], accepts)
      case None =>
      case Some(t1) =>
        InsertAllSucceedsIff(t1, rows[1..], accepts);
        assert forall i :: 1 <= i < |rows| ==> rows[i] == rows[1..][i - 1];
    }
  }

  /**
   * A committed batch never changes a row that was there, adds exactly the
   * keys of the batch that were missing, and stores for each new key the
   * first row of the batch that carries it.
   */
  lemma {:induction false} InsertAllSpec(t: Table, rows: seq<Row>, accepts: Row -> bool)
    requires InsertAll(t, rows, accepts).Some?
    ensures var t' := InsertAll(t, rows, accepts).value;
      && t'.Keys == t.Keys + Keys(rows)
      && (forall k :: k in t ==> t'[k] == t[k])
      && (forall k, i :: k !in t && FirstWithKey(rows, k, i) ==> t'[k] == rows[i])
    decreases |rows|
  {
    if rows != [] {
      var t1 := InsertRow(t, rows[0], accepts).value;
      var rest := rows[1..];
      InsertAllSpec(t1, rest, accepts);
      var t' := InsertAll(t, rows, accepts).value;
      var k0 := rows[0].workoutId.value;
      assert Keys(rows) == {k0} + Keys(rest) by {
        forall x | x in Keys(rows) ensures x in {k0} + Keys(rest) {
          var i :| 0 <= i < |rows| && rows[i].workoutId.Some? && rows[i].workoutId.value == x;
          if i > 0 { assert rest[i - 1] == rows[i]; }
        }
        forall x | x in Keys(rest) ensures x in Keys(rows) {
          var i :| 0 <= i < |rest| && rest[i].workoutId.Some? && rest[i].workoutId.value == x;
          assert rows[i + 1] == rest[i];
        }
      }
      forall k, i | k !in t && FirstWithKey(rows, k, i) ensures t'[k] == rows[i] {
        if i > 0 {
          assert rows[0].workoutId != Some(k);
          assert FirstWithKey(rest, k, i - 1);
        }
      }
    }
  }

  /** Inserting a table's own rows again is a no-op on every key. */
  lemma {:induction false} InsertAllPresent(t: Table, rows: seq<Row>, accepts: Row -> bool)
    requires forall i :: 0 <= i < |rows| ==> Insertable(rows[i], accepts) && rows[i].workoutId.value in t
    ensures InsertAll(t, rows, accepts) == Some(t)
    decreases |rows|
  {
    if rows != [] {
      assert forall i :: 0 <= i < |rows| - 1 ==> rows[1..][i] == rows[i + 1];
      InsertAllPresent(t, rows[1..], accepts);
    }
  }

  /** Applying the same batch twice leaves the table the first application left. */
  lemma InsertAllIdempotent(t: Table, rows: seq<Row>, accepts: Row -> bool)
    requires InsertAll(t, rows, accepts).Some?
    ensures InsertAll(InsertAll(t, rows, accepts).value, rows, accepts) == InsertAll(t, rows, accepts)
  {
    var t' := InsertAll(t, rows, accepts).value;
    InsertAllSucceedsIff(t, rows, accepts);
    InsertAllSpec(t, rows, accepts);
    forall i | 0 <= i < |rows| ensures rows[i].workoutId.value in t' {
      assert rows[i].workoutId.value in Keys(rows);
    }
    InsertAllPresent(t', rows, accepts);
  }

  /** The same workout inserted twice gives one row, the first one. */
  lemma DuplicateKeepsFirst(t: Table, a: Row, b: Row, accepts: Row -> bool)
    requires Insertable(a, accepts) && Insertable(b, accepts) && a.workoutId == b.workoutId
    requires a.workoutId.value !in t
    ensures InsertAll(t, [a, b], accepts) == Some(t[a.workoutId.value := a])
  {
    var k := a.workoutId.value;
    assert [a, b][1..] == [b];
    assert [b][1..] == [];
    assert InsertRow(t, a, accepts) == Some(t[k := a]);
    assert InsertRow(t[k := a], b, accepts) == Some(t[k := a]);
    assert InsertAll(t[k := a], [b], accepts) == InsertAll(t[k := a], [], accepts);
  }

  /** A frame whose workout_id column was dropped commits nothing. */
  lemma DroppedIdsCommitNothing(tableExists: bool, t: Table, rows: seq<Row>, accepts: Row -> bool)
    requires rows != [] && forall i :: 0 <= i < |rows| ==> rows[i].workoutId.None?
    ensures Committed(Upsert(tableExists, t, rows, accepts), t) == t
  {
    InsertAllSucceedsIff(t, rows, accepts);
  }

  /** The database behind `psycopg2.connect`. */
  class Database {
    var tableExists: bool
    var table: Table

    ghost predicate Valid()
      reads this
    {
      !tableExists ==> table == map[]
    }

    constructor (tableExists: bool, table: Table)
      requires !tableExists ==> table == map[]
      ensures Valid() && this.tableExists == tableExists && this.table == table
    {
      this.tableExists := tableExists;
      this.table := table;
    }

    /** `write_to_rds`: optional `CREATE TABLE IF NOT EXISTS`, then the
        insert loop with one commit at its end; an exception in the loop is
        printed and swallowed, and its inserts are never committed. */
    method WriteToRds(df: seq<Row>, createTable: bool, accepts: Row -> bool)
      requires Valid()
      modifies this
      ensures Valid()
      ensures tableExists == (old(tableExists) || createTable)
      ensures table == Committed(Upsert(tableExists, old(table), df, accepts), old(table))
    {
      if createTable {
        tableExists := true;
      }
      var pending := table;
      var i := 0;
      while i < |df|
        invariant 0 <= i <= |df|
        invariant table == old(table) && tableExists == (old(tableExists) || createTable)
        invariant tableExists ==> Upsert(tableExists, table, df, accepts) == InsertAll(pending, df[i..], accepts)
        invariant !tableExists ==> i == 0 && pending == table
      {
        if !tableExists {
          return;
        }
        var row := df[i];
        match InsertRow(pending, row, accepts)
        case None =>
          return;
        case Some(next) =>
          assert df[i..][1..] == df[i + 1..];
          pending := next;
        i := i + 1;
      }
      assert df[i..] == [];
      table := pending;
    }
  }
}
