/**
 * The relational database the SQL handler talks to, reduced to what the
 * handler's statements rely on: tables with typed columns, a primary key
 * and single-column foreign keys; DROP TABLE, CREATE TABLE, INSERT and
 * SELECT; and the server's rules that an empty string is NULL, that a
 * VARCHAR2 value must fit its size, that a key is present and unique and
 * that a foreign key names an existing row. Every refusal is a
 * DatabaseError.
 */
module Oracle {
  import opened Common
  import opened Text
  import opened Dates

  datatype ColumnType =
    | Varchar2(size: nat)            // at most `size` characters; "" is stored as NULL
    | Number                         // any integer
    | NumberPrecision(digits: nat)   // an integer of at most `digits` digits
    | DateType                       // a date with a time of day

  datatype Column = Column(name: string, kind: ColumnType)

  /** `FOREIGN KEY (columns[column]) REFERENCES table(<its primary key>)`. */
  datatype ForeignKey = ForeignKey(column: nat, table: string)

  datatype TableDef = TableDef(columns: seq<Column>, primaryKey: seq<nat>, foreignKeys: seq<ForeignKey>)

  /** A stored value; a DATE comes back as a date-time. */
  datatype SqlValue = Null | Text(s: string) | Num(n: int) | Timestamp(date: CalendarDate, seconds: nat)

  /** A Python value bound to a statement parameter. */
  datatype Bind = BindText(s: string) | BindInt(i: int) | BindDate(d: CalendarDate)

  type Record = seq<SqlValue>

  /** The committed state: each table's definition and its rows in storage order. */
  datatype Db = Db(schema: map<string, TableDef>, data: map<string, seq<Record>>)

  /** A definition whose key and foreign-key positions name columns. */
  predicate WellFormedDef(def: TableDef)
  {
    && (forall k :: 0 <= k < |def.primaryKey| ==> def.primaryKey[k] < |def.columns|)
    && (forall k :: 0 <= k < |def.foreignKeys| ==> def.foreignKeys[k].column < |def.columns|)
  }

  /** A table a foreign key can point at: one key column. */
  predicate Referenceable(db: Db, table: string)
  {
    table in db.schema && |db.schema[table].primaryKey| == 1
  }

  /**
   * The structural invariant: every table has rows, every definition is
   * well formed, every foreign key points at an existing table with a
   * one-column key, and every row has one value per column.
   */
  predicate WellFormed(db: Db)
  {
    && db.data.Keys == db.schema.Keys
    && (forall t :: t in db.schema ==> WellFormedDef(db.schema[t]))
    && (forall t, k :: t in db.schema && 0 <= k < |db.schema[t].foreignKeys| ==>
          Referenceable(db, db.schema[t].foreignKeys[k].table))
    && (forall t, j :: t in db.schema && 0 <= j < |db.data[t]| ==>
          |db.data[t][j]| == |db.schema[t].columns|)
  }

  // ---------------------------------------------------------------------
  // DDL

  /** Some table other than `table` has a foreign key into it. */
  predicate ReferencedByOther(db: Db, table: string)
  {
    exists u, k :: u in db.schema && u != table && 0 <= k < |db.schema[u].foreignKeys|
      && db.schema[u].foreignKeys[k].table == table
  }

  /** `DROP TABLE t`: refused when t does not exist or another table references it. */
  function DropTable(db: Db, table: string): (r: Result<Db>)
    ensures r.Err? <==> table !in db.schema || ReferencedByOther(db, table)
    ensures r.Ok? ==> r.value.schema == db.schema - {table} && r.value.data == db.data - {table}
  {
    if table !in db.schema || ReferencedByOther(db, table) then Err(DatabaseError)
    else Ok(Db(db.schema - {table}, db.data - {table}))
  }

  /** Every foreign key of `def` points at an existing table with a one-column key. */
  predicate TargetsExist(db: Db, def: TableDef)
  {
    forall k :: 0 <= k < |def.foreignKeys| ==> Referenceable(db, def.foreignKeys[k].table)
  }

  /** `CREATE TABLE t (...)`: refused when the name is taken or a referenced table is missing. */
  function CreateTable(db: Db, table: string, def: TableDef): (r: Result<Db>)
    requires WellFormedDef(def)
    ensures r.Err? <==> table in db.schema || !TargetsExist(db, def)
    ensures r.Ok? ==> r.value.schema == db.schema[table := def] && r.value.data == db.data[table := []]
  {
    if table in db.schema || !TargetsExist(db, def) then Err(DatabaseError)
    else Ok(Db(db.schema[table := def], db.data[table := []]))
  }

  lemma DropPreservesWellFormed(db: Db, table: string)
    requires WellFormed(db) && DropTable(db, table).Ok?
    ensures WellFormed(DropTable(db, table).value)
  {
    var d := DropTable(db, table).value;
    forall t, k | t in d.schema && 0 <= k < |d.schema[t].foreignKeys|
      ensures Referenceable(d, d.schema[t].foreignKeys[k].table)
    {
      var target := d.schema[t].foreignKeys[k].table;
      assert Referenceable(db, target);
      assert t != table && t in db.schema;
    }
  }

  lemma CreatePreservesWellFormed(db: Db, table: string, def: TableDef)
    requires WellFormed(db) && WellFormedDef(def) && CreateTable(db, table, def).Ok?
    ensures WellFormed(CreateTable(db, table, def).value)
  {
    var d := CreateTable(db, table, def).value;
    forall t, k | t in d.schema && 0 <= k < |d.schema[t].foreignKeys|
      ensures Referenceable(d, d.schema[t].foreignKeys[k].table)
    {
      var target := d.schema[t].foreignKeys[k].table;
      if t == table {
        assert Referenceable(db, target);
      } else {
        assert Referenceable(db, target);
      }
    }
  }

  // ---------------------------------------------------------------------
  // INSERT

  /** How a bound Python value is stored in a column of the given type. */
  function StoreValue(kind: ColumnType, b: Bind): (r: Result<SqlValue>)
    ensures r.Ok? && b.BindText? ==> (r.value == Null <==> b.s == "")
  {
    match (kind, b)
    case (Varchar2(size), BindText(s)) =>
      if s == "" then Ok(Null) else if |s| > size then Err(DatabaseError) else Ok(Text(s))
    case (Number, BindInt(i)) => Ok(Num(i))
    case (NumberPrecision(digits), BindInt(i)) =>
      var bound: int := Pow10(digits);
      if -bound < i < bound then Ok(Num(i)) else Err(DatabaseError)
    case (DateType, BindDate(d)) => Ok(Timestamp(d, 0))
    case _ => Err(DatabaseError)
  }

  /** The stored row for a parameter list: one parameter per column, in column order. */
  function StoreRow(columns: seq<Column>, binds: seq<Bind>): (r: Result<Record>)
    ensures r.Ok? ==> |r.value| == |columns| == |binds|
    ensures r.Ok? ==> forall k :: 0 <= k < |columns| ==> StoreValue(columns[k].kind, binds[k]) == Ok(r.value[k])
    ensures (|columns| == |binds| && forall k :: 0 <= k < |columns| ==> StoreValue(columns[k].kind, binds[k]).Ok?)
            ==> r.Ok?
  {
    if |columns| != |binds| then Err(DatabaseError)
    else if columns == [] then Ok([])
    else
      var n := |columns| - 1;
      var init :- StoreRow(columns[..n], binds[..n]);
      var last :- StoreValue(columns[n].kind, binds[n]);
      Ok(init + [last])
  }

  /** The key values of a row. */
  function Key(def: TableDef, row: Record): seq<SqlValue>
    requires WellFormedDef(def) && |row| == |def.columns|
  {
    seq(|def.primaryKey|, k requires 0 <= k < |def.primaryKey| => row[def.primaryKey[k]])
  }

  predicate KeyPresent(def: TableDef, row: Record)
    requires WellFormedDef(def) && |row| == |def.columns|
  {
    forall k :: 0 <= k < |def.primaryKey| ==> row[def.primaryKey[k]] != Null
  }

  /** Some stored row already has the row's key (a table without a key never clashes). */
  predicate KeyTaken(def: TableDef, rows: seq<Record>, row: Record)
    requires WellFormedDef(def) && |row| == |def.columns|
    requires forall j :: 0 <= j < |rows| ==> |rows[j]| == |def.columns|
  {
    |def.primaryKey| > 0 && exists j :: 0 <= j < |rows| && Key(def, rows[j]) == Key(def, row)
  }

  /** The referenced table holds a row whose key is `v`. */
  predicate Referenced(db: Db, fk: ForeignKey, v: SqlValue)
    requires WellFormed(db) && Referenceable(db, fk.table)
  {
    var pk := db.schema[fk.table].primaryKey[0];
    exists j :: 0 <= j < |db.data[fk.table]| && db.data[fk.table][j][pk] == v
  }

  /** Every foreign-key value of the row is NULL or names a referenced row. */
  predicate ForeignKeysHold(db: Db, table: string, row: Record)
    requires WellFormed(db) && table in db.schema && |row| == |db.schema[table].columns|
  {
    var def := db.schema[table];
    forall k :: 0 <= k < |def.foreignKeys| ==>
      row[def.foreignKeys[k].column] == Null || Referenced(db, def.foreignKeys[k], row[def.foreignKeys[k].column])
  }

  /** `INSERT INTO table VALUES (...)`: the row is appended when every constraint holds. */
  function Insert(db: Db, table: string, binds: seq<Bind>): (r: Result<Db>)
    requires WellFormed(db)
    ensures r.Ok? ==> table in db.schema
    ensures r.Ok? ==> StoreRow(db.schema[table].columns, binds).Ok?
    ensures r.Ok? ==> var row := StoreRow(db.schema[table].columns, binds).value;
      && KeyPresent(db.schema[table], row)
      && !KeyTaken(db.schema[table], db.data[table], row)
      && ForeignKeysHold(db, table, row)
      && r.value == Db(db.schema, db.data[table := db.data[table] + [row]])
  {
    if table !in db.schema then Err(DatabaseError)
    else
      var def := db.schema[table];
      var row :- StoreRow(def.columns, binds);
      if !KeyPresent(def, row) || KeyTaken(def, db.data[table], row) || !ForeignKeysHold(db, table, row) then
        Err(DatabaseError)
      else
        Ok(Db(db.schema, db.data[table := db.data[table] + [row]]))
  }

  /** Every row of the table has its key and satisfies its foreign keys, and no two rows share a key. */
  predicate TableConsistent(db: Db, t: string)
    requires WellFormed(db) && t in db.schema
  {
    var def := db.schema[t];
    var rows := db.data[t];
    && (forall j :: 0 <= j < |rows| ==> KeyPresent(def, rows[j]) && ForeignKeysHold(db, t, rows[j]))
    && (|def.primaryKey| > 0 ==> forall i, j :: 0 <= i < j < |rows| ==> Key(def, rows[i]) != Key(def, rows[j]))
  }

  /** Every constraint holds in every table. */
  predicate Consistent(db: Db)
    requires WellFormed(db)
  {
    forall t :: t in db.schema ==> TableConsistent(db, t)
  }

  lemma InsertPreservesWellFormed(db: Db, table: string, binds: seq<Bind>)
    requires WellFormed(db) && Insert(db, table, binds).Ok?
    ensures WellFormed(Insert(db, table, binds).value)
  {
  }

  /** A row that satisfied its foreign keys still does after another row is added. */
  lemma ForeignKeysStay(db: Db, d: Db, t: string, row: Record)
    requires WellFormed(db) && WellFormed(d) && d.schema == db.schema
    requires forall u :: u in db.schema ==> db.data[u] <= d.data[u]
    requires t in db.schema && |row| == |db.schema[t].columns|
    requires ForeignKeysHold(db, t, row)
    ensures ForeignKeysHold(d, t, row)
  {
    var def := db.schema[t];
    forall k | 0 <= k < |def.foreignKeys| && row[def.foreignKeys[k].column] != Null
      ensures Referenced(d, def.foreignKeys[k], row[def.foreignKeys[k].column])
    {
      var fk := def.foreignKeys[k];
      var pk := db.schema[fk.table].primaryKey[0];
      var j :| 0 <= j < |db.data[fk.table]| && db.data[fk.table][j][pk] == row[fk.column];
      assert d.data[fk.table][j] == db.data[fk.table][j];
    }
  }

  /** The database never holds a row that breaks a key or foreign-key constraint. */
  lemma InsertPreservesConsistent(db: Db, table: string, binds: seq<Bind>)
    requires WellFormed(db) && Consistent(db) && Insert(db, table, binds).Ok?
    ensures WellFormed(Insert(db, table, binds).value)
    ensures Consistent(Insert(db, table, binds).value)
  {
    var d := Insert(db, table, binds).value;
    forall t | t in d.schema
      ensures TableConsistent(d, t)
    {
      assert TableConsistent(db, t);
      InsertKeepsTable(db, table, binds, t);
    }
  }

  lemma InsertKeepsTable(db: Db, table: string, binds: seq<Bind>, t: string)
    requires WellFormed(db) && Insert(db, table, binds).Ok?
    requires t in db.schema && TableConsistent(db, t)
    ensures TableConsistent(Insert(db, table, binds).value, t)
  {
    var d := Insert(db, table, binds).value;
    var row := StoreRow(db.schema[table].columns, binds).value;
    var def := db.schema[t];
    forall u | u in db.schema
      ensures db.data[u] <= d.data[u]
    {
    }
    forall j | 0 <= j < |d.data[t]|
      ensures KeyPresent(def, d.data[t][j]) && ForeignKeysHold(d, t, d.data[t][j])
    {
      if t == table && j == |db.data[t]| {
        ForeignKeysStay(db, d, t, row);
      } else {
        assert d.data[t][j] == db.data[t][j];
        ForeignKeysStay(db, d, t, db.data[t][j]);
      }
    }
    if |def.primaryKey| > 0 {
      forall i, j | 0 <= i < j < |d.data[t]|
        ensures Key(def, d.data[t][i]) != Key(def, d.data[t][j])
      {
        assert d.data[t][i] == db.data[t][i];
        if t == table && j == |db.data[t]| {
          assert d.data[t][j] == row;
        } else {
          assert d.data[t][j] == db.data[t][j];
        }
      }
    }
  }

  /** `cursor.executemany(sql, rows)`: one INSERT per parameter list, in order; the first refusal aborts. */
  function InsertMany(db: Db, table: string, rows: seq<seq<Bind>>): (r: Result<Db>)
    requires WellFormed(db)
    ensures r.Ok? ==> WellFormed(r.value) && r.value.schema == db.schema
    decreases |rows|
  {
    if rows == [] then Ok(db)
    else
      var d :- Insert(db, table, rows[0]);
      InsertPreservesWellFormed(db, table, rows[0]);
      InsertMany(d, table, rows[1..])
  }

  /** No two rows share a key (trivially so for a table without a key). */
  predicate UniqueKeys(def: TableDef, rows: seq<Record>)
    requires WellFormedDef(def) && forall j :: 0 <= j < |rows| ==> |rows[j]| == |def.columns|
  {
    |def.primaryKey| > 0 ==> forall i, j :: 0 <= i < j < |rows| ==> Key(def, rows[i]) != Key(def, rows[j])
  }

  /** Rows of the right width with their keys, whose foreign keys hold in `db`. */
  predicate Admissible(db: Db, table: string, rows: seq<Record>)
    requires WellFormed(db) && table in db.schema
  {
    forall i :: 0 <= i < |rows| ==>
      && |rows[i]| == |db.schema[table].columns|
      && KeyPresent(db.schema[table], rows[i])
      && ForeignKeysHold(db, table, rows[i])
  }

  /** No foreign key of the table points back at the table itself. */
  predicate NotSelfReferencing(def: TableDef, table: string)
  {
    forall k :: 0 <= k < |def.foreignKeys| ==> def.foreignKeys[k].table != table
  }

  /** A stored row for a parameter list that converts value by value. */
  lemma {:induction false} StoreRowOk(columns: seq<Column>, binds: seq<Bind>, row: Record)
    requires |columns| == |binds| == |row|
    requires forall k :: 0 <= k < |columns| ==> StoreValue(columns[k].kind, binds[k]) == Ok(row[k])
    ensures StoreRow(columns, binds) == Ok(row)
  {
    if columns != [] {
      var n := |columns| - 1;
      StoreRowOk(columns[..n], binds[..n], row[..n]);
      assert row == row[..n] + [row[n]];
    }
  }

  /**
   * executemany of rows that each fit, carry their key, find what their
   * foreign keys name, and whose keys clash neither with each other nor
   * with the rows already there, appends them all in order.
   */
  lemma {:induction false} InsertManyAppends(db: Db, table: string, binds: seq<seq<Bind>>, rows: seq<Record>)
    requires WellFormed(db) && table in db.schema
    requires |binds| == |rows|
    requires forall i :: 0 <= i < |binds| ==> StoreRow(db.schema[table].columns, binds[i]) == Ok(rows[i])
    requires Admissible(db, table, rows)
    requires UniqueKeys(db.schema[table], db.data[table] + rows)
    requires NotSelfReferencing(db.schema[table], table)
    ensures InsertMany(db, table, binds) == Ok(Db(db.schema, db.data[table := db.data[table] + rows]))
    decreases |binds|
  {
    var def := db.schema[table];
    var old_rows := db.data[table];
    if binds == [] {
      assert old_rows + rows == old_rows;
      assert db.data[table := old_rows] == db.data;
    } else {
      var row := rows[0];
      assert (old_rows + rows)[|old_rows|] == row;
      assert forall j :: 0 <= j < |old_rows| ==> (old_rows + rows)[j] == old_rows[j];
      assert !KeyTaken(def, old_rows, row);
      var d := Db(db.schema, db.data[table := old_rows + [row]]);
      assert Insert(db, table, binds[0]) == Ok(d);
      InsertPreservesWellFormed(db, table, binds[0]);
      forall u | u in db.schema
        ensures db.data[u] <= d.data[u]
      {
      }
      forall i | 0 <= i < |rows| - 1
        ensures ForeignKeysHold(d, table, rows[1..][i])
      {
        ForeignKeysStay(db, d, table, rows[i + 1]);
      }
      assert (old_rows + [row]) + rows[1..] == old_rows + rows;
      InsertManyAppends(d, table, binds[1..], rows[1..]);
      assert d.data[table := (old_rows + [row]) + rows[1..]] == db.data[table := old_rows + rows];
    }
  }

  /** Each parameter list was stored as the row at the same position. */
  predicate StoredAll(columns: seq<Column>, binds: seq<seq<Bind>>, rows: seq<Record>)
  {
    |rows| == |binds| && forall i :: 0 <= i < |binds| ==> StoreRow(columns, binds[i]) == Ok(rows[i])
  }

  /**
   * What a successful executemany did: it appended one stored row per
   * parameter list to its table, in order, and changed no other table.
   */
  lemma {:induction false} InsertManyRows(db: Db, table: string, binds: seq<seq<Bind>>)
    requires WellFormed(db) && InsertMany(db, table, binds).Ok?
    ensures binds != [] ==> table in db.schema
    ensures var d := InsertMany(db, table, binds).value;
      && (forall u :: u in db.schema && u != table ==> d.data[u] == db.data[u])
      && (table in db.schema ==>
            |d.data[table]| >= |db.data[table]| && d.data[table][..|db.data[table]|] == db.data[table]
            && StoredAll(db.schema[table].columns, binds, d.data[table][|db.data[table]|..]))
    decreases |binds|
  {
    if binds != [] {
      var d1 := Insert(db, table, binds[0]).value;
      var row := StoreRow(db.schema[table].columns, binds[0]).value;
      InsertPreservesWellFormed(db, table, binds[0]);
      InsertManyRows(d1, table, binds[1..]);
      var d := InsertMany(db, table, binds).value;
      assert d == InsertMany(d1, table, binds[1..]).value;
      AppendedAfterStep(db.data[table], d1.data[table], d.data[table], row);
      StoredAllCons(db.schema[table].columns, binds, d.data[table][|db.data[table]|..]);
    } else if table in db.schema {
      assert db.data[table][..|db.data[table]|] == db.data[table];
    }
  }

  /** A sequence that extends `prefix + [x]` extends `prefix` by `x` and then the rest. */
  lemma AppendedAfterStep<T>(prefix: seq<T>, mid: seq<T>, full: seq<T>, x: T)
    requires mid == prefix + [x]
    requires |full| >= |mid| && full[..|mid|] == mid
    ensures |full| >= |prefix| && full[..|prefix|] == prefix
    ensures full[|prefix|..] == [x] + full[|mid|..]
  {
    assert full[..|prefix|] == full[..|mid|][..|prefix|];
    assert full[|prefix|..][0] == full[..|mid|][|prefix|];
  }

  /** Stored position by position: the first list, then the rest. */
  lemma StoredAllCons(columns: seq<Column>, binds: seq<seq<Bind>>, rows: seq<Record>)
    requires binds != [] && |rows| == |binds|
    requires StoreRow(columns, binds[0]) == Ok(rows[0])
    requires StoredAll(columns, binds[1..], rows[1..])
    ensures StoredAll(columns, binds, rows)
  {
    forall i | 0 < i < |binds|
      ensures StoreRow(columns, binds[i]) == Ok(rows[i])
    {
      assert binds[1..][i - 1] == binds[i] && rows[1..][i - 1] == rows[i];
    }
  }

  /** A successful executemany leaves every constraint holding. */
  lemma {:induction false} InsertManyConsistent(db: Db, table: string, binds: seq<seq<Bind>>)
    requires WellFormed(db) && Consistent(db) && InsertMany(db, table, binds).Ok?
    ensures Consistent(InsertMany(db, table, binds).value)
    decreases |binds|
  {
    if binds != [] {
      InsertPreservesConsistent(db, table, binds[0]);
      InsertManyConsistent(Insert(db, table, binds[0]).value, table, binds[1..]);
    }
  }

  // ---------------------------------------------------------------------
  // SELECT

  /** The position of a column, by name. */
  function ColumnIndex(columns: seq<Column>, name: string): (r: Option<nat>)
    ensures r.Some? ==> r.value < |columns| && columns[r.value].name == name
    ensures r.None? ==> forall k :: 0 <= k < |columns| ==> columns[k].name != name
  {
    if columns == [] then None
    else if columns[0].name == name then Some(0)
    else match ColumnIndex(columns[1..], name)
      case None => None
      case Some(k) => Some(k + 1)
  }

  function ColumnIndices(columns: seq<Column>, names: seq<string>): (r: Result<seq<nat>>)
    ensures r.Ok? ==> |r.value| == |names| && forall k :: 0 <= k < |names| ==> r.value[k] < |columns|
    ensures r.Ok? ==> forall k :: 0 <= k < |names| ==> columns[r.value[k]].name == names[k]
  {
    if names == [] then Ok([])
    else
      var n := |names| - 1;
      var init :- ColumnIndices(columns, names[..n]);
      match ColumnIndex(columns, names[n])
      case None => Err(DatabaseError)
      case Some(k) => Ok(init + [k])
  }

  /**
   * `SELECT names FROM table`, rows in storage order: refused for an unknown
   * table or column. The order a cursor delivers them in is up to the
   * server; readers see some permutation of these rows.
   */
  function Select(db: Db, table: string, names: seq<string>): (r: Result<seq<Record>>)
    requires WellFormed(db)
    ensures r.Ok? ==> table in db.schema && |r.value| == |db.data[table]|
    ensures r.Err? <==> table !in db.schema || ColumnIndices(db.schema[table].columns, names).Err?
  {
    if table !in db.schema then Err(DatabaseError)
    else
      var idx :- ColumnIndices(db.schema[table].columns, names);
      var rows := db.data[table];
      Ok(seq(|rows|, j requires 0 <= j < |rows| =>
        seq(|idx|, k requires 0 <= k < |idx| => rows[j][idx[k]])))
  }

  /** The column names of a table, in declaration order. */
  function ColumnNames(columns: seq<Column>): (names: seq<string>)
    ensures |names| == |columns| && forall k :: 0 <= k < |columns| ==> names[k] == columns[k].name
  {
    seq(|columns|, k requires 0 <= k < |columns| => columns[k].name)
  }

  /** No two columns share a name. */
  predicate DistinctNames(columns: seq<Column>)
  {
    forall i, j :: 0 <= i < j < |columns| ==> columns[i].name != columns[j].name
  }

  /** With distinct column names, selecting every column in declaration order yields the stored rows. */
  lemma SelectAllColumns(db: Db, table: string)
    requires WellFormed(db) && table in db.schema
    requires DistinctNames(db.schema[table].columns)
    ensures Select(db, table, ColumnNames(db.schema[table].columns)) == Ok(db.data[table])
  {
    var columns := db.schema[table].columns;
    var names := ColumnNames(columns);
    IndicesOfDistinct(columns, |columns|);
    assert names[..|columns|] == names;
    var rows := db.data[table];
    var idx := ColumnIndices(columns, names).value;
    assert forall k :: 0 <= k < |idx| ==> idx[k] == k;
    var sel := seq(|rows|, j requires 0 <= j < |rows| =>
      seq(|idx|, k requires 0 <= k < |idx| => rows[j][idx[k]]));
    forall j | 0 <= j < |rows|
      ensures sel[j] == rows[j]
    {
      assert |rows[j]| == |idx|;
    }
    assert sel == rows;
  }

  lemma {:induction false} IndicesOfDistinct(columns: seq<Column>, n: nat)
    requires n <= |columns| && DistinctNames(columns)
    ensures ColumnIndices(columns, ColumnNames(columns)[..n]).Ok?
    ensures forall k :: 0 <= k < n ==> ColumnIndices(columns, ColumnNames(columns)[..n]).value[k] == k
  {
    var names := ColumnNames(columns);
    if n > 0 {
      IndicesOfDistinct(columns, n - 1);
      assert names[..n][..n - 1] == names[..n - 1];
      assert names[..n][n - 1] == columns[n - 1].name;
      FirstIndex(columns, n - 1);
    }
  }

  /** In a list of distinct names, a name is found where it stands. */
  lemma {:induction false} FirstIndex(columns: seq<Column>, i: nat)
    requires i < |columns| && DistinctNames(columns)
    ensures ColumnIndex(columns, columns[i].name) == Some(i)
  {
    if i > 0 {
      assert columns[0].name != columns[i].name;
      var rest := columns[1..];
      assert rest[i - 1] == columns[i];
      FirstIndex(rest, i - 1);
    }
  }
}
