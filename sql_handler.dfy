/**
 * The Oracle backend: creates the five tables, loads a whole data set in
 * one transaction and reads people, departments and projects back. The
 * server is module Oracle; a connection is the database state it holds.
 */
module SqlHandler {
  import opened Common
  import opened Dates
  import opened Model
  import opened Oracle

  const PersonTable := "A_PERSON"
  const DepartmentTable := "A_DEPARTMENT"
  const ProjectTable := "A_PROJECT"
  const PersonDepartmentTable := "A_PERSON_DEPARTMENT"
  const PersonProjectTable := "A_PERSON_PROJECT"

  const OwnTables: set<string> :=
    {PersonTable, DepartmentTable, ProjectTable, PersonDepartmentTable, PersonProjectTable}

  const PersonDef := TableDef(
    [Column("id", Varchar2(50)), Column("name", Varchar2(100)), Column("age", Number), Column("male", NumberPrecision(1))],
    [0], [])

  const DepartmentDef := TableDef(
    [Column("id", Varchar2(50)), Column("name", Varchar2(100)), Column("floor", Number)],
    [0], [])

  const ProjectDef := TableDef(
    [Column("id", Varchar2(50)), Column("name", Varchar2(100)), Column("budget", Number),
     Column("deadline", DateType), Column("status", Varchar2(20))],
    [0], [])

  /** One department per person: the person is the key. */
  const PersonDepartmentDef := TableDef(
    [Column("person_id", Varchar2(50)), Column("department_id", Varchar2(50)),
     Column("job", Varchar2(100)), Column("salary", Number)],
    [0], [ForeignKey(0, PersonTable), ForeignKey(1, DepartmentTable)])

  /** Many projects per person: the pair is the key. */
  const PersonProjectDef := TableDef(
    [Column("person_id", Varchar2(50)), Column("project_id", Varchar2(50))],
    [0, 1], [ForeignKey(0, PersonTable), ForeignKey(1, ProjectTable)])

  /** The definition `create_tables` gives each of its tables. */
  function DefOf(table: string): (def: TableDef)
    requires table in OwnTables
    ensures WellFormedDef(def)
  {
    if table == PersonTable then PersonDef
    else if table == DepartmentTable then DepartmentDef
    else if table == ProjectTable then ProjectDef
    else if table == PersonDepartmentTable then PersonDepartmentDef
    else PersonProjectDef
  }

  /** The order of the CREATE TABLE statements: referenced tables first. */
  const CreateOrder: seq<string> :=
    [PersonTable, DepartmentTable, ProjectTable, PersonDepartmentTable, PersonProjectTable]

  /** Referencing tables first, so that no drop is refused for a table still pointing at it. */
  const DropOrder: seq<string> :=
    [PersonProjectTable, PersonDepartmentTable, ProjectTable, DepartmentTable, PersonTable]

  // ---------------------------------------------------------------------
  // create_tables

  /** `try: DROP TABLE t except DatabaseError: pass`. */
  function DropIgnoringError(db: Db, table: string): Db
  {
    match DropTable(db, table)
    case Ok(d) => d
    case Err(_) => db
  }

  /** The drops of the first loop, one after another. */
  function DropAll(db: Db, tables: seq<string>): (r: Db)
  {
    if tables == [] then db
    else DropIgnoringError(DropAll(db, tables[..|tables| - 1]), tables[|tables| - 1])
  }

  /** The drops remove none but the tables they name, and no table appears. */
  lemma {:induction false} DropAllKeepsOthers(db: Db, tables: seq<string>)
    ensures DropAll(db, tables).schema.Keys <= db.schema.Keys && DropAll(db, tables).data.Keys <= db.data.Keys
    ensures forall u :: u in db.schema && u !in tables ==> u in DropAll(db, tables).schema && DropAll(db, tables).schema[u] == db.schema[u]
    ensures forall u :: u in db.data && u !in tables ==> u in DropAll(db, tables).data && DropAll(db, tables).data[u] == db.data[u]
  {
    if tables != [] {
      var init := tables[..|tables| - 1];
      DropAllKeepsOthers(db, init);
      assert forall u :: u !in tables ==> u !in init && u != tables[|tables| - 1];
    }
  }

  /** CREATE TABLE statements in order; the first refusal raises. */
  function CreateEach(db: Db, tables: seq<string>): (r: Result<Db>)
    requires forall i :: 0 <= i < |tables| ==> tables[i] in OwnTables
    ensures r.Err? ==> r.error == DatabaseError
    decreases |tables|
  {
    if tables == [] then Ok(db)
    else
      var d :- CreateTable(db, tables[0], DefOf(tables[0]));
      CreateEach(d, tables[1..])
  }

  /**
   * Creates that all go through: none of the tables existed, each is now
   * there with its definition and no rows, and nothing else changed.
   */
  lemma {:induction false} CreateEachEffect(db: Db, tables: seq<string>)
    requires forall i :: 0 <= i < |tables| ==> tables[i] in OwnTables
    requires CreateEach(db, tables).Ok?
    ensures var r := CreateEach(db, tables).value;
      && (forall t :: t in tables ==> t !in db.schema)
      && (forall t :: t in tables ==> t in r.schema && r.schema[t] == DefOf(t) && t in r.data && r.data[t] == [])
      && (forall u :: u in db.schema ==> u in r.schema && r.schema[u] == db.schema[u])
      && (forall u :: u in db.data && u !in tables ==> u in r.data && r.data[u] == db.data[u])
      && (forall u :: u in r.schema ==> u in db.schema || u in tables)
    decreases |tables|
  {
    if tables != [] {
      var d := CreateTable(db, tables[0], DefOf(tables[0])).value;
      CreateEachEffect(d, tables[1..]);
      assert forall t :: t in tables ==> t == tables[0] || t in tables[1..];
    }
  }

  /** The five CREATE TABLE statements of `create_tables`. */
  function CreateAll(db: Db): (r: Result<Db>)
    ensures r.Err? ==> r.error == DatabaseError
  {
    CreateEach(db, CreateOrder)
  }

  /**
   * The five creates succeed only when none of the five exists, and then
   * install the five definitions with no rows, keeping every other table.
   */
  lemma CreateAllEffect(db: Db)
    requires CreateAll(db).Ok?
    ensures var r := CreateAll(db).value;
      && (forall t :: t in OwnTables ==> t !in db.schema)
      && (forall t :: t in OwnTables ==> t in r.schema && r.schema[t] == DefOf(t) && t in r.data && r.data[t] == [])
      && (forall u :: u in db.schema ==> u in r.schema && r.schema[u] == db.schema[u])
      && r.schema.Keys == db.schema.Keys + OwnTables
  {
    assert forall t :: t in OwnTables <==> t in CreateOrder;
    CreateEachEffect(db, CreateOrder);
  }

  /** `create_tables`: drop each table if possible, then create all five. */
  method CreateTables(db: Db) returns (r: Result<Db>)
    ensures r == CreateAll(DropAll(db, DropOrder))
  {
    var current := db;
    for i := 0 to |DropOrder|
      invariant current == DropAll(db, DropOrder[..i])
    {
      assert DropOrder[..i + 1][..i] == DropOrder[..i];
      var dropped := DropTable(current, DropOrder[i]);
      if dropped.Ok? {
        current := dropped.value;
      }
    }
    assert DropOrder[..|DropOrder|] == DropOrder;
    r := CreateAll(current);
  }

  /** The database with the five tables in their fresh state and every other table as it was. */
  function Installed(db: Db): Db
  {
    Db((db.schema - OwnTables)[PersonTable := PersonDef][DepartmentTable := DepartmentDef][ProjectTable := ProjectDef]
         [PersonDepartmentTable := PersonDepartmentDef][PersonProjectTable := PersonProjectDef],
       (db.data - OwnTables)[PersonTable := []][DepartmentTable := []][ProjectTable := []]
         [PersonDepartmentTable := []][PersonProjectTable := []])
  }

  /** No table besides the five points into one of them. */
  predicate NoOutsideReferences(db: Db)
  {
    forall u, k :: u in db.schema && u !in OwnTables && 0 <= k < |db.schema[u].foreignKeys| ==>
      db.schema[u].foreignKeys[k].table !in OwnTables
  }

  /** Those of the five that exist have the definitions `create_tables` gives them. */
  predicate OwnDefinitions(db: Db)
  {
    forall t :: t in OwnTables && t in db.schema ==> db.schema[t] == DefOf(t)
  }

  /** Which of the five still point at `table`. */
  lemma OwnReferences(db: Db, table: string)
    requires NoOutsideReferences(db) && OwnDefinitions(db) && table in OwnTables
    requires table == PersonTable ==> PersonDepartmentTable !in db.schema && PersonProjectTable !in db.schema
    requires table == DepartmentTable ==> PersonDepartmentTable !in db.schema
    requires table == ProjectTable ==> PersonProjectTable !in db.schema
    ensures !ReferencedByOther(db, table)
  {
    forall u, k | u in db.schema && u != table && 0 <= k < |db.schema[u].foreignKeys|
      ensures db.schema[u].foreignKeys[k].table != table
    {
      if u == PersonDepartmentTable {
        assert db.schema[u] == PersonDepartmentDef;
      } else if u == PersonProjectTable {
        assert db.schema[u] == PersonProjectDef;
      }
    }
  }

  /** A drop that nothing blocks removes the table, whether or not it existed. */
  lemma DropUnblocked(db: Db, table: string)
    requires WellFormed(db) && !ReferencedByOther(db, table)
    ensures DropIgnoringError(db, table) == Db(db.schema - {table}, db.data - {table})
    ensures WellFormed(DropIgnoringError(db, table))
  {
    if table in db.schema {
      DropPreservesWellFormed(db, table);
    } else {
      assert table !in db.data;
      assert db.schema - {table} == db.schema;
      assert db.data - {table} == db.data;
    }
  }

  /** The tables the first `i` drops name. */
  function DroppedBy(i: nat): set<string>
    requires i <= |DropOrder|
  {
    if i == 0 then {} else DroppedBy(i - 1) + {DropOrder[i - 1]}
  }

  lemma {:induction false} DroppedEarlier(i: nat, j: nat)
    requires j < i <= |DropOrder|
    ensures DropOrder[j] in DroppedBy(i)
  {
    if j < i - 1 {
      DroppedEarlier(i - 1, j);
    }
  }

  /** Removing tables keeps both conditions. */
  lemma FewerTables(db: Db, gone: set<string>)
    requires NoOutsideReferences(db) && OwnDefinitions(db)
    ensures NoOutsideReferences(Db(db.schema - gone, db.data - gone))
    ensures OwnDefinitions(Db(db.schema - gone, db.data - gone))
  {
  }

  /** The `i`-th drop of the loop goes through, or finds its table absent. */
  lemma DropStep(db: Db, i: nat)
    requires 0 < i <= |DropOrder|
    requires WellFormed(db) && NoOutsideReferences(db) && OwnDefinitions(db)
    requires WellFormed(Db(db.schema - DroppedBy(i - 1), db.data - DroppedBy(i - 1)))
    ensures DropIgnoringError(Db(db.schema - DroppedBy(i - 1), db.data - DroppedBy(i - 1)), DropOrder[i - 1])
         == Db(db.schema - DroppedBy(i), db.data - DroppedBy(i))
    ensures WellFormed(Db(db.schema - DroppedBy(i), db.data - DroppedBy(i)))
  {
    var gone := DroppedBy(i - 1);
    var d := Db(db.schema - gone, db.data - gone);
    var table := DropOrder[i - 1];
    FewerTables(db, gone);
    if i >= 2 {
      DroppedEarlier(i - 1, 0);
    }
    if i >= 3 {
      DroppedEarlier(i - 1, 1);
    }
    OwnReferences(d, table);
    DropUnblocked(d, table);
    assert d.schema - {table} == db.schema - DroppedBy(i);
    assert d.data - {table} == db.data - DroppedBy(i);
  }

  /** The drops of the loop, up to the `i`-th. */
  lemma {:induction false} DropPrefix(db: Db, i: nat)
    requires i <= |DropOrder|
    requires WellFormed(db) && NoOutsideReferences(db) && OwnDefinitions(db)
    ensures DropAll(db, DropOrder[..i]) == Db(db.schema - DroppedBy(i), db.data - DroppedBy(i))
    ensures WellFormed(DropAll(db, DropOrder[..i]))
  {
    if i == 0 {
      assert db.schema - {} == db.schema && db.data - {} == db.data;
    } else {
      DropPrefix(db, i - 1);
      assert DropOrder[..i][..i - 1] == DropOrder[..i - 1];
      DropStep(db, i);
    }
  }

  /**
   * When nothing outside the five points into them and those that exist
   * are as `create_tables` left them, the drops all go through and the
   * creates succeed: re-running the set-up starts over with empty tables
   * and leaves every other table alone.
   */
  lemma CreateTablesInstalls(db: Db)
    requires WellFormed(db) && NoOutsideReferences(db) && OwnDefinitions(db)
    ensures CreateAll(DropAll(db, DropOrder)) == Ok(Installed(db))
  {
    DropPrefix(db, 5);
    assert DropOrder[..5] == DropOrder;
    assert DroppedBy(5) == OwnTables;
    CreateAllOnCleared(Db(db.schema - OwnTables, db.data - OwnTables));
  }

  /** With none of the five present, the five creates go through in order. */
  lemma CreateAllOnCleared(db: Db)
    requires forall t :: t in OwnTables ==> t !in db.schema
    ensures CreateAll(db) == Ok(Db(db.schema[PersonTable := PersonDef][DepartmentTable := DepartmentDef]
                                     [ProjectTable := ProjectDef][PersonDepartmentTable := PersonDepartmentDef]
                                     [PersonProjectTable := PersonProjectDef],
                                   db.data[PersonTable := []][DepartmentTable := []][ProjectTable := []]
                                     [PersonDepartmentTable := []][PersonProjectTable := []]))
  {
    var d3 := CreateEntityTables(db);
    TableNamesDistinct();
    var order := CreateOrder;
    assert Referenceable(d3, PersonTable) && Referenceable(d3, DepartmentTable);
    var d4 := Db(d3.schema[PersonDepartmentTable := PersonDepartmentDef], d3.data[PersonDepartmentTable := []]);
    assert CreateTable(d3, PersonDepartmentTable, PersonDepartmentDef) == Ok(d4);
    assert CreateEach(d3, order[3..]) == CreateEach(d4, order[4..]);
    assert Referenceable(d4, PersonTable) && Referenceable(d4, ProjectTable);
    var d5 := Db(d4.schema[PersonProjectTable := PersonProjectDef], d4.data[PersonProjectTable := []]);
    assert CreateTable(d4, PersonProjectTable, PersonProjectDef) == Ok(d5);
    assert CreateEach(d4, order[4..]) == CreateEach(d5, order[5..]);
  }

  /** The first three creates, which reference nothing. */
  lemma CreateEntityTables(db: Db) returns (d3: Db)
    requires forall t :: t in OwnTables ==> t !in db.schema
    ensures d3 == Db(db.schema[PersonTable := PersonDef][DepartmentTable := DepartmentDef][ProjectTable := ProjectDef],
                     db.data[PersonTable := []][DepartmentTable := []][ProjectTable := []])
    ensures CreateAll(db) == CreateEach(d3, CreateOrder[3..])
  {
    TableNamesDistinct();
    var order := CreateOrder;
    var d1 := Db(db.schema[PersonTable := PersonDef], db.data[PersonTable := []]);
    assert CreateTable(db, PersonTable, PersonDef) == Ok(d1);
    assert CreateEach(db, order) == CreateEach(d1, order[1..]);
    var d2 := Db(d1.schema[DepartmentTable := DepartmentDef], d1.data[DepartmentTable := []]);
    assert CreateTable(d1, DepartmentTable, DepartmentDef) == Ok(d2);
    assert CreateEach(d1, order[1..]) == CreateEach(d2, order[2..]);
    d3 := Db(d2.schema[ProjectTable := ProjectDef], d2.data[ProjectTable := []]);
    assert CreateTable(d2, ProjectTable, ProjectDef) == Ok(d3);
    assert CreateEach(d2, order[2..]) == CreateEach(d3, order[3..]);
  }

  /** A drop removes at most the table named. */
  lemma DropKeepsOthers(db: Db, table: string, u: string)
    requires u != table && u in db.schema
    ensures u in DropIgnoringError(db, table).schema
    ensures DropIgnoringError(db, table).schema[u] == db.schema[u]
  {
  }

  /**
   * A foreign table that references A_PERSON blocks its drop, so the
   * first CREATE TABLE finds the name taken and the set-up raises.
   */
  lemma CreateTablesBlocked(db: Db, u: string, k: nat)
    requires PersonTable in db.schema && u in db.schema && u !in OwnTables
    requires k < |db.schema[u].foreignKeys| && db.schema[u].foreignKeys[k].table == PersonTable
    ensures CreateAll(DropAll(db, DropOrder)).Err?
  {
    var d := db;
    for i := 0 to 4
      invariant d == DropAll(db, DropOrder[..i])
      invariant PersonTable in d.schema && u in d.schema && d.schema[u] == db.schema[u]
    {
      assert DropOrder[..i + 1][..i] == DropOrder[..i];
      DropKeepsOthers(d, DropOrder[i], PersonTable);
      DropKeepsOthers(d, DropOrder[i], u);
      d := DropIgnoringError(d, DropOrder[i]);
    }
    assert ReferencedByOther(d, PersonTable);
    assert DropOrder[..5][..4] == DropOrder[..4];
    assert DropOrder[..5] == DropOrder;
    assert DropAll(db, DropOrder) == d;
  }

  // ---------------------------------------------------------------------
  // insert_data

  function PersonBinds(p: Person): seq<Bind>
  {
    [BindText(p.id), BindText(p.name), BindInt(p.age), BindInt(if p.male then 1 else 0)]
  }

  function DepartmentBinds(d: Department): seq<Bind>
  {
    [BindText(d.id), BindText(d.name), BindInt(d.floor)]
  }

  function ProjectBinds(p: Project): seq<Bind>
  {
    [BindText(p.id), BindText(p.name), BindInt(p.budget), BindDate(p.deadline), BindText(p.status)]
  }

  function DeptAssignmentBinds(a: DeptAssignment): seq<Bind>
  {
    [BindText(a.personId), BindText(a.departmentId), BindText(a.job), BindInt(a.salary)]
  }

  function ProjAssignmentBinds(a: ProjAssignment): seq<Bind>
  {
    [BindText(a.personId), BindText(a.projectId)]
  }

  /**
   * `insert_data`: the five executemany calls in order, then one commit.
   * The first refused row raises before the commit, so nothing of the
   * data set becomes part of the committed state.
   */
  function InsertData(db: Db, people: seq<Person>, departments: seq<Department>, projects: seq<Project>,
                      deptAssignments: seq<DeptAssignment>, projAssignments: seq<ProjAssignment>): (r: Result<Db>)
    requires WellFormed(db)
    ensures r.Ok? ==> WellFormed(r.value) && r.value.schema == db.schema
  {
    var d1 :- InsertMany(db, PersonTable, Map(PersonBinds, people));
    var d2 :- InsertMany(d1, DepartmentTable, Map(DepartmentBinds, departments));
    var d3 :- InsertMany(d2, ProjectTable, Map(ProjectBinds, projects));
    var d4 :- InsertMany(d3, PersonDepartmentTable, Map(DeptAssignmentBinds, deptAssignments));
    var d5 :- InsertMany(d4, PersonProjectTable, Map(ProjAssignmentBinds, projAssignments));
    Ok(d5)
  }

  /** How a string is stored in a VARCHAR2 column. */
  function Nullable(s: string): SqlValue
  {
    if |s| == 0 then Null else Text(s)
  }

  function PersonRecord(p: Person): Record
  {
    [Text(p.id), Nullable(p.name), Num(p.age), Num(if p.male then 1 else 0)]
  }

  function DepartmentRecord(d: Department): Record
  {
    [Text(d.id), Nullable(d.name), Num(d.floor)]
  }

  function ProjectRecord(p: Project): Record
  {
    [Text(p.id), Nullable(p.name), Num(p.budget), Timestamp(p.deadline, 0), Nullable(p.status)]
  }

  function DeptAssignmentRecord(a: DeptAssignment): Record
  {
    [Text(a.personId), Nullable(a.departmentId), Nullable(a.job), Num(a.salary)]
  }

  function ProjAssignmentRecord(a: ProjAssignment): Record
  {
    [Text(a.personId), Text(a.projectId)]
  }

  /** Values that fit their columns, with a non-empty (so non-NULL) key. */
  predicate StorablePerson(p: Person)
  {
    0 < |p.id| <= 50 && |p.name| <= 100
  }

  predicate StorableDepartment(d: Department)
  {
    0 < |d.id| <= 50 && |d.name| <= 100
  }

  predicate StorableProject(p: Project)
  {
    0 < |p.id| <= 50 && |p.name| <= 100 && |p.status| <= 20
  }

  predicate StorableDeptAssignment(a: DeptAssignment)
  {
    0 < |a.personId| <= 50 && |a.departmentId| <= 50 && |a.job| <= 100
  }

  predicate StorableProjAssignment(a: ProjAssignment)
  {
    0 < |a.personId| <= 50 && 0 < |a.projectId| <= 50
  }

  lemma PersonStored(p: Person)
    requires StorablePerson(p)
    ensures StoreRow(PersonDef.columns, PersonBinds(p)) == Ok(PersonRecord(p))
  {
    StoreRowOk(PersonDef.columns, PersonBinds(p), PersonRecord(p));
  }

  lemma DepartmentStored(d: Department)
    requires StorableDepartment(d)
    ensures StoreRow(DepartmentDef.columns, DepartmentBinds(d)) == Ok(DepartmentRecord(d))
  {
    StoreRowOk(DepartmentDef.columns, DepartmentBinds(d), DepartmentRecord(d));
  }

  lemma ProjectStored(p: Project)
    requires StorableProject(p)
    ensures StoreRow(ProjectDef.columns, ProjectBinds(p)) == Ok(ProjectRecord(p))
  {
    StoreRowOk(ProjectDef.columns, ProjectBinds(p), ProjectRecord(p));
  }

  lemma DeptAssignmentStored(a: DeptAssignment)
    requires StorableDeptAssignment(a)
    ensures StoreRow(PersonDepartmentDef.columns, DeptAssignmentBinds(a)) == Ok(DeptAssignmentRecord(a))
  {
    StoreRowOk(PersonDepartmentDef.columns, DeptAssignmentBinds(a), DeptAssignmentRecord(a));
  }

  lemma ProjAssignmentStored(a: ProjAssignment)
    requires StorableProjAssignment(a)
    ensures StoreRow(PersonProjectDef.columns, ProjAssignmentBinds(a)) == Ok(ProjAssignmentRecord(a))
  {
    StoreRowOk(PersonProjectDef.columns, ProjAssignmentBinds(a), ProjAssignmentRecord(a));
  }

  function AssignedPeople(assignments: seq<DeptAssignment>): (ids: seq<string>)
    ensures |ids| == |assignments| && forall i :: 0 <= i < |assignments| ==> ids[i] == assignments[i].personId
  {
    seq(|assignments|, i requires 0 <= i < |assignments| => assignments[i].personId)
  }

  /** The assignment names a listed person, and a listed department unless it leaves the department empty. */
  predicate DeptAssignmentRefers(a: DeptAssignment, people: seq<Person>, departments: seq<Department>)
  {
    a.personId in PersonIds(people) && (|a.departmentId| == 0 || a.departmentId in DepartmentIds(departments))
  }

  predicate ProjAssignmentRefers(a: ProjAssignment, people: seq<Person>, projects: seq<Project>)
  {
    a.personId in PersonIds(people) && a.projectId in ProjectIds(projects)
  }

  /** People, departments and projects that fit their columns, with unique ids per list. */
  predicate EntitiesLoadable(people: seq<Person>, departments: seq<Department>, projects: seq<Project>)
  {
    && (forall i :: 0 <= i < |people| ==> StorablePerson(people[i]))
    && (forall i :: 0 <= i < |departments| ==> StorableDepartment(departments[i]))
    && (forall i :: 0 <= i < |projects| ==> StorableProject(projects[i]))
    && Distinct(PersonIds(people)) && Distinct(DepartmentIds(departments)) && Distinct(ProjectIds(projects))
  }

  /**
   * A data set the schema accepts: every value fits, ids are unique per
   * table, a person has at most one department assignment and each project
   * assignment at most once, and assignments name stored rows.
   */
  predicate Loadable(people: seq<Person>, departments: seq<Department>, projects: seq<Project>,
                     deptAssignments: seq<DeptAssignment>, projAssignments: seq<ProjAssignment>)
  {
    && EntitiesLoadable(people, departments, projects)
    && (forall i :: 0 <= i < |deptAssignments| ==> StorableDeptAssignment(deptAssignments[i]))
    && (forall i :: 0 <= i < |projAssignments| ==> StorableProjAssignment(projAssignments[i]))
    && Distinct(AssignedPeople(deptAssignments)) && Distinct(projAssignments)
    && (forall i :: 0 <= i < |deptAssignments| ==> DeptAssignmentRefers(deptAssignments[i], people, departments))
    && (forall i :: 0 <= i < |projAssignments| ==> ProjAssignmentRefers(projAssignments[i], people, projects))
  }

  /** The table exists with the given definition and holds no rows. */
  predicate EmptyTable(db: Db, table: string, def: TableDef)
  {
    table in db.schema && table in db.data && db.schema[table] == def && db.data[table] == []
  }

  /** The state `create_tables` leaves: the five tables, empty. */
  predicate Ready(db: Db)
  {
    && WellFormed(db)
    && EmptyTable(db, PersonTable, PersonDef)
    && EmptyTable(db, DepartmentTable, DepartmentDef)
    && EmptyTable(db, ProjectTable, ProjectDef)
    && EmptyTable(db, PersonDepartmentTable, PersonDepartmentDef)
    && EmptyTable(db, PersonProjectTable, PersonProjectDef)
  }

  /** A successful set-up keeps the database well formed. */
  lemma {:induction false} CreateEachWellFormed(db: Db, tables: seq<string>)
    requires forall i :: 0 <= i < |tables| ==> tables[i] in OwnTables
    requires WellFormed(db) && CreateEach(db, tables).Ok?
    ensures WellFormed(CreateEach(db, tables).value)
    decreases |tables|
  {
    if tables != [] {
      CreatePreservesWellFormed(db, tables[0], DefOf(tables[0]));
      CreateEachWellFormed(CreateTable(db, tables[0], DefOf(tables[0])).value, tables[1..]);
    }
  }

  lemma CreateAllWellFormed(db: Db)
    requires WellFormed(db) && CreateAll(db).Ok?
    ensures WellFormed(CreateAll(db).value)
  {
    CreateEachWellFormed(db, CreateOrder);
  }

  lemma InstalledTables(db: Db)
    ensures EmptyTable(Installed(db), PersonTable, PersonDef)
    ensures EmptyTable(Installed(db), DepartmentTable, DepartmentDef)
    ensures EmptyTable(Installed(db), ProjectTable, ProjectDef)
    ensures EmptyTable(Installed(db), PersonDepartmentTable, PersonDepartmentDef)
    ensures EmptyTable(Installed(db), PersonProjectTable, PersonProjectDef)
  {
  }

  /** The set-up always leaves the tables ready for a load. */
  lemma InstalledIsReady(db: Db)
    requires WellFormed(db) && NoOutsideReferences(db) && OwnDefinitions(db)
    ensures Ready(Installed(db))
  {
    CreateTablesInstalls(db);
    DropPrefix(db, 5);
    assert DropOrder[..5] == DropOrder;
    CreateAllWellFormed(DropAll(db, DropOrder));
    InstalledTables(db);
  }

  /** The committed state after a successful load into ready tables. */
  function Loaded(db: Db, people: seq<Person>, departments: seq<Department>, projects: seq<Project>,
                  deptAssignments: seq<DeptAssignment>, projAssignments: seq<ProjAssignment>): Db
  {
    Db(db.schema, db.data[PersonTable := Map(PersonRecord, people)]
                         [DepartmentTable := Map(DepartmentRecord, departments)]
                         [ProjectTable := Map(ProjectRecord, projects)]
                         [PersonDepartmentTable := Map(DeptAssignmentRecord, deptAssignments)]
                         [PersonProjectTable := Map(ProjAssignmentRecord, projAssignments)])
  }

  lemma PeopleInserted(db: Db, people: seq<Person>)
    requires WellFormed(db) && EmptyTable(db, PersonTable, PersonDef)
    requires forall i :: 0 <= i < |people| ==> StorablePerson(people[i])
    requires Distinct(PersonIds(people))
    ensures InsertMany(db, PersonTable, Map(PersonBinds, people))
         == Ok(Db(db.schema, db.data[PersonTable := Map(PersonRecord, people)]))
  {
    var rows := Map(PersonRecord, people);
    forall i | 0 <= i < |people|
      ensures StoreRow(PersonDef.columns, Map(PersonBinds, people)[i]) == Ok(rows[i])
    {
      PersonStored(people[i]);
    }
    forall i, j | 0 <= i < j < |rows|
      ensures Key(PersonDef, rows[i]) != Key(PersonDef, rows[j])
    {
      assert Key(PersonDef, rows[i])[0] == Text(PersonIds(people)[i]);
      assert Key(PersonDef, rows[j])[0] == Text(PersonIds(people)[j]);
    }
    assert [] + rows == rows;
    forall i | 0 <= i < |rows|
      ensures |rows[i]| == 4 && KeyPresent(PersonDef, rows[i]) && ForeignKeysHold(db, PersonTable, rows[i])
    {
    }
    assert Admissible(db, PersonTable, rows);
    assert UniqueKeys(PersonDef, db.data[PersonTable] + rows);
    assert NotSelfReferencing(PersonDef, PersonTable);
    InsertManyAppends(db, PersonTable, Map(PersonBinds, people), rows);
  }

  lemma DepartmentsInserted(db: Db, departments: seq<Department>)
    requires WellFormed(db) && EmptyTable(db, DepartmentTable, DepartmentDef)
    requires forall i :: 0 <= i < |departments| ==> StorableDepartment(departments[i])
    requires Distinct(DepartmentIds(departments))
    ensures InsertMany(db, DepartmentTable, Map(DepartmentBinds, departments))
         == Ok(Db(db.schema, db.data[DepartmentTable := Map(DepartmentRecord, departments)]))
  {
    var rows := Map(DepartmentRecord, departments);
    forall i | 0 <= i < |departments|
      ensures StoreRow(DepartmentDef.columns, Map(DepartmentBinds, departments)[i]) == Ok(rows[i])
    {
      DepartmentStored(departments[i]);
    }
    forall i, j | 0 <= i < j < |rows|
      ensures Key(DepartmentDef, rows[i]) != Key(DepartmentDef, rows[j])
    {
      assert Key(DepartmentDef, rows[i])[0] == Text(DepartmentIds(departments)[i]);
      assert Key(DepartmentDef, rows[j])[0] == Text(DepartmentIds(departments)[j]);
    }
    assert [] + rows == rows;
    forall i | 0 <= i < |rows|
      ensures |rows[i]| == 3 && KeyPresent(DepartmentDef, rows[i]) && ForeignKeysHold(db, DepartmentTable, rows[i])
    {
    }
    assert Admissible(db, DepartmentTable, rows);
    assert UniqueKeys(DepartmentDef, db.data[DepartmentTable] + rows);
    assert NotSelfReferencing(DepartmentDef, DepartmentTable);
    InsertManyAppends(db, DepartmentTable, Map(DepartmentBinds, departments), rows);
  }

  lemma ProjectsInserted(db: Db, projects: seq<Project>)
    requires WellFormed(db) && EmptyTable(db, ProjectTable, ProjectDef)
    requires forall i :: 0 <= i < |projects| ==> StorableProject(projects[i])
    requires Distinct(ProjectIds(projects))
    ensures InsertMany(db, ProjectTable, Map(ProjectBinds, projects))
         == Ok(Db(db.schema, db.data[ProjectTable := Map(ProjectRecord, projects)]))
  {
    var rows := Map(ProjectRecord, projects);
    forall i | 0 <= i < |projects|
      ensures StoreRow(ProjectDef.columns, Map(ProjectBinds, projects)[i]) == Ok(rows[i])
    {
      ProjectStored(projects[i]);
    }
    forall i, j | 0 <= i < j < |rows|
      ensures Key(ProjectDef, rows[i]) != Key(ProjectDef, rows[j])
    {
      assert Key(ProjectDef, rows[i])[0] == Text(ProjectIds(projects)[i]);
      assert Key(ProjectDef, rows[j])[0] == Text(ProjectIds(projects)[j]);
    }
    assert [] + rows == rows;
    forall i | 0 <= i < |rows|
      ensures |rows[i]| == 5 && KeyPresent(ProjectDef, rows[i]) && ForeignKeysHold(db, ProjectTable, rows[i])
    {
    }
    assert Admissible(db, ProjectTable, rows);
    assert UniqueKeys(ProjectDef, db.data[ProjectTable] + rows);
    assert NotSelfReferencing(ProjectDef, ProjectTable);
    InsertManyAppends(db, ProjectTable, Map(ProjectBinds, projects), rows);
  }

  /** A foreign key into a table holding exactly the stored records finds an id exactly when the list has it. */
  lemma PersonReferenced(db: Db, people: seq<Person>, id: string)
    requires WellFormed(db) && PersonTable in db.schema && db.schema[PersonTable] == PersonDef
    requires db.data[PersonTable] == Map(PersonRecord, people)
    ensures Referenced(db, ForeignKey(0, PersonTable), Text(id)) <==> id in PersonIds(people)
  {
    if id in PersonIds(people) {
      var j :| 0 <= j < |people| && PersonIds(people)[j] == id;
      assert db.data[PersonTable][j][0] == Text(id);
    }
    if Referenced(db, ForeignKey(0, PersonTable), Text(id)) {
      var j :| 0 <= j < |people| && db.data[PersonTable][j][0] == Text(id);
      assert PersonIds(people)[j] == id;
    }
  }

  lemma DepartmentReferenced(db: Db, departments: seq<Department>, id: string)
    requires WellFormed(db) && DepartmentTable in db.schema && db.schema[DepartmentTable] == DepartmentDef
    requires db.data[DepartmentTable] == Map(DepartmentRecord, departments)
    ensures Referenced(db, ForeignKey(1, DepartmentTable), Text(id)) <==> id in DepartmentIds(departments)
  {
    if id in DepartmentIds(departments) {
      var j :| 0 <= j < |departments| && DepartmentIds(departments)[j] == id;
      assert db.data[DepartmentTable][j][0] == Text(id);
    }
    if Referenced(db, ForeignKey(1, DepartmentTable), Text(id)) {
      var j :| 0 <= j < |departments| && db.data[DepartmentTable][j][0] == Text(id);
      assert DepartmentIds(departments)[j] == id;
    }
  }

  lemma ProjectReferenced(db: Db, projects: seq<Project>, id: string)
    requires WellFormed(db) && ProjectTable in db.schema && db.schema[ProjectTable] == ProjectDef
    requires db.data[ProjectTable] == Map(ProjectRecord, projects)
    ensures Referenced(db, ForeignKey(1, ProjectTable), Text(id)) <==> id in ProjectIds(projects)
  {
    if id in ProjectIds(projects) {
      var j :| 0 <= j < |projects| && ProjectIds(projects)[j] == id;
      assert db.data[ProjectTable][j][0] == Text(id);
    }
    if Referenced(db, ForeignKey(1, ProjectTable), Text(id)) {
      var j :| 0 <= j < |projects| && db.data[ProjectTable][j][0] == Text(id);
      assert ProjectIds(projects)[j] == id;
    }
  }

  /** The department assignment keys are unique exactly when no person appears twice. */
  lemma DeptAssignmentKeysUnique(assignments: seq<DeptAssignment>)
    ensures UniqueKeys(PersonDepartmentDef, Map(DeptAssignmentRecord, assignments)) <==> Distinct(AssignedPeople(assignments))
  {
    var rows := Map(DeptAssignmentRecord, assignments);
    forall i, j | 0 <= i < j < |rows|
      ensures Key(PersonDepartmentDef, rows[i]) != Key(PersonDepartmentDef, rows[j])
          <==> AssignedPeople(assignments)[i] != AssignedPeople(assignments)[j]
    {
      assert Key(PersonDepartmentDef, rows[i])[0] == Text(AssignedPeople(assignments)[i]);
      assert Key(PersonDepartmentDef, rows[j])[0] == Text(AssignedPeople(assignments)[j]);
    }
  }

  /** The composite keys are unique exactly when no (person, project) pair repeats. */
  lemma ProjAssignmentKeysUnique(assignments: seq<ProjAssignment>)
    ensures UniqueKeys(PersonProjectDef, Map(ProjAssignmentRecord, assignments)) <==> Distinct(assignments)
  {
    var rows := Map(ProjAssignmentRecord, assignments);
    forall i, j | 0 <= i < j < |rows|
      ensures Key(PersonProjectDef, rows[i]) != Key(PersonProjectDef, rows[j]) <==> assignments[i] != assignments[j]
    {
      var ki, kj := Key(PersonProjectDef, rows[i]), Key(PersonProjectDef, rows[j]);
      assert ki == [Text(assignments[i].personId), Text(assignments[i].projectId)];
      assert kj == [Text(assignments[j].personId), Text(assignments[j].projectId)];
    }
  }

  /** One assignment row converts, has its key, and names rows already stored. */
  lemma DeptAssignmentAdmitted(db: Db, people: seq<Person>, departments: seq<Department>, a: DeptAssignment)
    requires WellFormed(db) && PersonDepartmentTable in db.schema && db.schema[PersonDepartmentTable] == PersonDepartmentDef
    requires PersonTable in db.schema && db.schema[PersonTable] == PersonDef
    requires db.data[PersonTable] == Map(PersonRecord, people)
    requires DepartmentTable in db.schema && db.schema[DepartmentTable] == DepartmentDef
    requires db.data[DepartmentTable] == Map(DepartmentRecord, departments)
    requires StorableDeptAssignment(a) && DeptAssignmentRefers(a, people, departments)
    ensures StoreRow(PersonDepartmentDef.columns, DeptAssignmentBinds(a)) == Ok(DeptAssignmentRecord(a))
    ensures KeyPresent(PersonDepartmentDef, DeptAssignmentRecord(a))
    ensures ForeignKeysHold(db, PersonDepartmentTable, DeptAssignmentRecord(a))
  {
    DeptAssignmentStored(a);
    PersonReferenced(db, people, a.personId);
    if |a.departmentId| > 0 {
      DepartmentReferenced(db, departments, a.departmentId);
    }
  }

  lemma DeptAssignmentsInserted(db: Db, people: seq<Person>, departments: seq<Department>,
                                assignments: seq<DeptAssignment>)
    requires WellFormed(db) && EmptyTable(db, PersonDepartmentTable, PersonDepartmentDef)
    requires PersonTable in db.schema && db.schema[PersonTable] == PersonDef
    requires db.data[PersonTable] == Map(PersonRecord, people)
    requires DepartmentTable in db.schema && db.schema[DepartmentTable] == DepartmentDef
    requires db.data[DepartmentTable] == Map(DepartmentRecord, departments)
    requires forall i :: 0 <= i < |assignments| ==> StorableDeptAssignment(assignments[i])
    requires forall i :: 0 <= i < |assignments| ==> DeptAssignmentRefers(assignments[i], people, departments)
    requires Distinct(AssignedPeople(assignments))
    ensures InsertMany(db, PersonDepartmentTable, Map(DeptAssignmentBinds, assignments))
         == Ok(Db(db.schema, db.data[PersonDepartmentTable := Map(DeptAssignmentRecord, assignments)]))
  {
    var binds := Map(DeptAssignmentBinds, assignments);
    var rows := Map(DeptAssignmentRecord, assignments);
    forall i | 0 <= i < |assignments|
      ensures StoreRow(PersonDepartmentDef.columns, binds[i]) == Ok(rows[i])
      ensures |rows[i]| == 4 && KeyPresent(PersonDepartmentDef, rows[i])
      ensures ForeignKeysHold(db, PersonDepartmentTable, rows[i])
    {
      DeptAssignmentAdmitted(db, people, departments, assignments[i]);
    }
    DeptAssignmentKeysUnique(assignments);
    assert [] + rows == rows;
    assert Admissible(db, PersonDepartmentTable, rows);
    InsertManyAppends(db, PersonDepartmentTable, binds, rows);
  }

  /** One project assignment row converts, has its key, and names rows already stored. */
  lemma ProjAssignmentAdmitted(db: Db, people: seq<Person>, projects: seq<Project>, a: ProjAssignment)
    requires WellFormed(db) && PersonProjectTable in db.schema && db.schema[PersonProjectTable] == PersonProjectDef
    requires PersonTable in db.schema && db.schema[PersonTable] == PersonDef
    requires db.data[PersonTable] == Map(PersonRecord, people)
    requires ProjectTable in db.schema && db.schema[ProjectTable] == ProjectDef
    requires db.data[ProjectTable] == Map(ProjectRecord, projects)
    requires StorableProjAssignment(a) && ProjAssignmentRefers(a, people, projects)
    ensures StoreRow(PersonProjectDef.columns, ProjAssignmentBinds(a)) == Ok(ProjAssignmentRecord(a))
    ensures KeyPresent(PersonProjectDef, ProjAssignmentRecord(a))
    ensures ForeignKeysHold(db, PersonProjectTable, ProjAssignmentRecord(a))
  {
    ProjAssignmentStored(a);
    PersonReferenced(db, people, a.personId);
    ProjectReferenced(db, projects, a.projectId);
  }

  lemma ProjAssignmentsInserted(db: Db, people: seq<Person>, projects: seq<Project>,
                                assignments: seq<ProjAssignment>)
    requires WellFormed(db) && EmptyTable(db, PersonProjectTable, PersonProjectDef)
    requires PersonTable in db.schema && db.schema[PersonTable] == PersonDef
    requires db.data[PersonTable] == Map(PersonRecord, people)
    requires ProjectTable in db.schema && db.schema[ProjectTable] == ProjectDef
    requires db.data[ProjectTable] == Map(ProjectRecord, projects)
    requires forall i :: 0 <= i < |assignments| ==> StorableProjAssignment(assignments[i])
    requires forall i :: 0 <= i < |assignments| ==> ProjAssignmentRefers(assignments[i], people, projects)
    requires Distinct(assignments)
    ensures InsertMany(db, PersonProjectTable, Map(ProjAssignmentBinds, assignments))
         == Ok(Db(db.schema, db.data[PersonProjectTable := Map(ProjAssignmentRecord, assignments)]))
  {
    var binds := Map(ProjAssignmentBinds, assignments);
    var rows := Map(ProjAssignmentRecord, assignments);
    forall i | 0 <= i < |assignments|
      ensures StoreRow(PersonProjectDef.columns, binds[i]) == Ok(rows[i])
      ensures |rows[i]| == 2 && KeyPresent(PersonProjectDef, rows[i])
      ensures ForeignKeysHold(db, PersonProjectTable, rows[i])
    {
      ProjAssignmentAdmitted(db, people, projects, assignments[i]);
    }
    ProjAssignmentKeysUnique(assignments);
    assert [] + rows == rows;
    assert Admissible(db, PersonProjectTable, rows);
    InsertManyAppends(db, PersonProjectTable, binds, rows);
  }

  /**
   * Into the tables `create_tables` leaves, an acceptable data set loads
   * completely: every row of every list is committed, in list order.
   */
  lemma InsertDataLoads(db: Db, people: seq<Person>, departments: seq<Department>, projects: seq<Project>,
                        deptAssignments: seq<DeptAssignment>, projAssignments: seq<ProjAssignment>)
    requires Ready(db) && Loadable(people, departments, projects, deptAssignments, projAssignments)
    ensures InsertData(db, people, departments, projects, deptAssignments, projAssignments)
         == Ok(Loaded(db, people, departments, projects, deptAssignments, projAssignments))
  {
    var d3 := EntitiesLoad(db, people, departments, projects);
    AssignmentsLoad(d3, people, departments, projects, deptAssignments, projAssignments);
  }

  /** The first three executemany calls of a load into ready tables. */
  lemma EntitiesLoad(db: Db, people: seq<Person>, departments: seq<Department>, projects: seq<Project>)
    returns (d3: Db)
    requires Ready(db) && EntitiesLoadable(people, departments, projects)
    ensures d3 == Db(db.schema, db.data[PersonTable := Map(PersonRecord, people)]
                                       [DepartmentTable := Map(DepartmentRecord, departments)]
                                       [ProjectTable := Map(ProjectRecord, projects)])
    ensures var d1 := InsertMany(db, PersonTable, Map(PersonBinds, people));
      && d1.Ok? && var d2 := InsertMany(d1.value, DepartmentTable, Map(DepartmentBinds, departments));
      && d2.Ok? && InsertMany(d2.value, ProjectTable, Map(ProjectBinds, projects)) == Ok(d3)
    ensures WellFormed(d3)
    ensures d3.data[PersonTable] == Map(PersonRecord, people)
    ensures d3.data[DepartmentTable] == Map(DepartmentRecord, departments)
    ensures d3.data[ProjectTable] == Map(ProjectRecord, projects)
    ensures EmptyTable(d3, PersonDepartmentTable, PersonDepartmentDef)
    ensures EmptyTable(d3, PersonProjectTable, PersonProjectDef)
  {
    TableNamesDistinct();
    PeopleInserted(db, people);
    var d1 := Db(db.schema, db.data[PersonTable := Map(PersonRecord, people)]);
    DepartmentsInserted(d1, departments);
    var d2 := Db(d1.schema, d1.data[DepartmentTable := Map(DepartmentRecord, departments)]);
    ProjectsInserted(d2, projects);
    d3 := Db(d2.schema, d2.data[ProjectTable := Map(ProjectRecord, projects)]);
  }

  /** The two assignment executemany calls, once the people, departments and projects are in. */
  lemma AssignmentsLoad(d3: Db, people: seq<Person>, departments: seq<Department>, projects: seq<Project>,
                        deptAssignments: seq<DeptAssignment>, projAssignments: seq<ProjAssignment>)
    requires WellFormed(d3)
    requires PersonTable in d3.schema && d3.schema[PersonTable] == PersonDef
    requires d3.data[PersonTable] == Map(PersonRecord, people)
    requires DepartmentTable in d3.schema && d3.schema[DepartmentTable] == DepartmentDef
    requires d3.data[DepartmentTable] == Map(DepartmentRecord, departments)
    requires ProjectTable in d3.schema && d3.schema[ProjectTable] == ProjectDef
    requires d3.data[ProjectTable] == Map(ProjectRecord, projects)
    requires EmptyTable(d3, PersonDepartmentTable, PersonDepartmentDef)
    requires EmptyTable(d3, PersonProjectTable, PersonProjectDef)
    requires Loadable(people, departments, projects, deptAssignments, projAssignments)
    ensures var d4 := InsertMany(d3, PersonDepartmentTable, Map(DeptAssignmentBinds, deptAssignments));
      && d4.Ok?
      && InsertMany(d4.value, PersonProjectTable, Map(ProjAssignmentBinds, projAssignments))
         == Ok(Db(d3.schema, d3.data[PersonDepartmentTable := Map(DeptAssignmentRecord, deptAssignments)]
                                    [PersonProjectTable := Map(ProjAssignmentRecord, projAssignments)]))
  {
    TableNamesDistinct();
    DeptAssignmentsInserted(d3, people, departments, deptAssignments);
    var d4 := Db(d3.schema, d3.data[PersonDepartmentTable := Map(DeptAssignmentRecord, deptAssignments)]);
    ProjAssignmentsInserted(d4, people, projects, projAssignments);
  }

  /** The five table names are distinct (they differ in length). */
  lemma TableNamesDistinct()
    ensures PersonTable != DepartmentTable && PersonTable != ProjectTable
    ensures PersonTable != PersonDepartmentTable && PersonTable != PersonProjectTable
    ensures DepartmentTable != ProjectTable && DepartmentTable != PersonDepartmentTable
    ensures DepartmentTable != PersonProjectTable && ProjectTable != PersonDepartmentTable
    ensures ProjectTable != PersonProjectTable && PersonDepartmentTable != PersonProjectTable
  {
    assert |PersonTable| == 8 && |DepartmentTable| == 12 && |ProjectTable| == 9;
    assert |PersonDepartmentTable| == 19 && |PersonProjectTable| == 16;
  }

  /** An executemany into an empty table that went through holds the stored rows and leaves the other tables. */
  lemma InsertIntoEmpty(db: Db, table: string, binds: seq<seq<Bind>>)
    requires WellFormed(db) && table in db.schema && db.data[table] == []
    requires InsertMany(db, table, binds).Ok?
    ensures var d := InsertMany(db, table, binds).value;
      && WellFormed(d) && d.schema == db.schema
      && StoredAll(db.schema[table].columns, binds, d.data[table])
      && (table != PersonTable && PersonTable in db.schema ==> d.data[PersonTable] == db.data[PersonTable])
      && (table != DepartmentTable && DepartmentTable in db.schema ==> d.data[DepartmentTable] == db.data[DepartmentTable])
      && (table != ProjectTable && ProjectTable in db.schema ==> d.data[ProjectTable] == db.data[ProjectTable])
      && (table != PersonDepartmentTable && PersonDepartmentTable in db.schema ==> d.data[PersonDepartmentTable] == db.data[PersonDepartmentTable])
      && (table != PersonProjectTable && PersonProjectTable in db.schema ==> d.data[PersonProjectTable] == db.data[PersonProjectTable])
  {
    InsertManyRows(db, table, binds);
    var d := InsertMany(db, table, binds).value;
    assert d.data[table][0..] == d.data[table];
  }

  /** A load that went through leaves every constraint holding. */
  lemma InsertDataConsistent(db: Db, people: seq<Person>, departments: seq<Department>, projects: seq<Project>,
                             deptAssignments: seq<DeptAssignment>, projAssignments: seq<ProjAssignment>)
    requires WellFormed(db) && Consistent(db)
    requires InsertData(db, people, departments, projects, deptAssignments, projAssignments).Ok?
    ensures var d := InsertData(db, people, departments, projects, deptAssignments, projAssignments).value;
      WellFormed(d) && Consistent(d) && d.schema == db.schema
  {
    var d1 := InsertMany(db, PersonTable, Map(PersonBinds, people)).value;
    InsertManyConsistent(db, PersonTable, Map(PersonBinds, people));
    var d2 := InsertMany(d1, DepartmentTable, Map(DepartmentBinds, departments)).value;
    InsertManyConsistent(d1, DepartmentTable, Map(DepartmentBinds, departments));
    var d3 := InsertMany(d2, ProjectTable, Map(ProjectBinds, projects)).value;
    InsertManyConsistent(d2, ProjectTable, Map(ProjectBinds, projects));
    var d4 := InsertMany(d3, PersonDepartmentTable, Map(DeptAssignmentBinds, deptAssignments)).value;
    InsertManyConsistent(d3, PersonDepartmentTable, Map(DeptAssignmentBinds, deptAssignments));
    InsertManyConsistent(d4, PersonProjectTable, Map(ProjAssignmentBinds, projAssignments));
  }

  /** A load into ready tables that went through holds, in each table, the stored form of its list. */
  lemma InsertDataStored(db: Db, people: seq<Person>, departments: seq<Department>, projects: seq<Project>,
                         deptAssignments: seq<DeptAssignment>, projAssignments: seq<ProjAssignment>)
    requires Ready(db)
    requires InsertData(db, people, departments, projects, deptAssignments, projAssignments).Ok?
    ensures var d := InsertData(db, people, departments, projects, deptAssignments, projAssignments).value;
      && StoredAll(PersonDef.columns, Map(PersonBinds, people), d.data[PersonTable])
      && StoredAll(DepartmentDef.columns, Map(DepartmentBinds, departments), d.data[DepartmentTable])
      && StoredAll(ProjectDef.columns, Map(ProjectBinds, projects), d.data[ProjectTable])
      && StoredAll(PersonDepartmentDef.columns, Map(DeptAssignmentBinds, deptAssignments), d.data[PersonDepartmentTable])
      && StoredAll(PersonProjectDef.columns, Map(ProjAssignmentBinds, projAssignments), d.data[PersonProjectTable])
  {
    TableNamesDistinct();
    var d1 := InsertMany(db, PersonTable, Map(PersonBinds, people)).value;
    InsertIntoEmpty(db, PersonTable, Map(PersonBinds, people));
    var d2 := InsertMany(d1, DepartmentTable, Map(DepartmentBinds, departments)).value;
    InsertIntoEmpty(d1, DepartmentTable, Map(DepartmentBinds, departments));
    var d3 := InsertMany(d2, ProjectTable, Map(ProjectBinds, projects)).value;
    InsertIntoEmpty(d2, ProjectTable, Map(ProjectBinds, projects));
    var d4 := InsertMany(d3, PersonDepartmentTable, Map(DeptAssignmentBinds, deptAssignments)).value;
    InsertIntoEmpty(d3, PersonDepartmentTable, Map(DeptAssignmentBinds, deptAssignments));
    InsertIntoEmpty(d4, PersonProjectTable, Map(ProjAssignmentBinds, projAssignments));
  }

  // ---------------------------------------------------------------------
  // What a load that went through says about its data set

  /** A stored person row with its key is the person's record, and the person fits the columns. */
  lemma PersonRowOf(p: Person, row: Record)
    requires StoreRow(PersonDef.columns, PersonBinds(p)) == Ok(row) && row[0] != Null
    ensures StorablePerson(p) && row == PersonRecord(p)
  {
    assert StoreValue(Varchar2(50), BindText(p.id)) == Ok(row[0]);
    assert StoreValue(Varchar2(100), BindText(p.name)) == Ok(row[1]);
  }

  lemma DepartmentRowOf(d: Department, row: Record)
    requires StoreRow(DepartmentDef.columns, DepartmentBinds(d)) == Ok(row) && row[0] != Null
    ensures StorableDepartment(d) && row == DepartmentRecord(d)
  {
    assert StoreValue(Varchar2(50), BindText(d.id)) == Ok(row[0]);
    assert StoreValue(Varchar2(100), BindText(d.name)) == Ok(row[1]);
  }

  lemma ProjectRowOf(p: Project, row: Record)
    requires StoreRow(ProjectDef.columns, ProjectBinds(p)) == Ok(row) && row[0] != Null
    ensures StorableProject(p) && row == ProjectRecord(p)
  {
    assert StoreValue(Varchar2(50), BindText(p.id)) == Ok(row[0]);
    assert StoreValue(Varchar2(100), BindText(p.name)) == Ok(row[1]);
    assert StoreValue(Varchar2(20), BindText(p.status)) == Ok(row[4]);
  }

  lemma DeptAssignmentRowOf(a: DeptAssignment, row: Record)
    requires StoreRow(PersonDepartmentDef.columns, DeptAssignmentBinds(a)) == Ok(row) && row[0] != Null
    ensures StorableDeptAssignment(a) && row == DeptAssignmentRecord(a)
  {
    assert StoreValue(Varchar2(50), BindText(a.personId)) == Ok(row[0]);
    assert StoreValue(Varchar2(50), BindText(a.departmentId)) == Ok(row[1]);
    assert StoreValue(Varchar2(100), BindText(a.job)) == Ok(row[2]);
  }

  lemma ProjAssignmentRowOf(a: ProjAssignment, row: Record)
    requires StoreRow(PersonProjectDef.columns, ProjAssignmentBinds(a)) == Ok(row)
    requires row[0] != Null && row[1] != Null
    ensures StorableProjAssignment(a) && row == ProjAssignmentRecord(a)
  {
    assert StoreValue(Varchar2(50), BindText(a.personId)) == Ok(row[0]);
    assert StoreValue(Varchar2(50), BindText(a.projectId)) == Ok(row[1]);
  }

  /** The people of a consistent, fully stored A_PERSON table fit its columns and have distinct ids. */
  lemma PeopleAccepted(d: Db, people: seq<Person>)
    requires WellFormed(d) && PersonTable in d.schema && d.schema[PersonTable] == PersonDef
    requires TableConsistent(d, PersonTable)
    requires StoredAll(PersonDef.columns, Map(PersonBinds, people), d.data[PersonTable])
    ensures forall i :: 0 <= i < |people| ==> StorablePerson(people[i])
    ensures Distinct(PersonIds(people))
    ensures d.data[PersonTable] == Map(PersonRecord, people)
  {
    var rows := d.data[PersonTable];
    forall i | 0 <= i < |people|
      ensures StorablePerson(people[i]) && rows[i] == PersonRecord(people[i])
    {
      assert KeyPresent(PersonDef, rows[i]);
      assert rows[i][PersonDef.primaryKey[0]] != Null;
      PersonRowOf(people[i], rows[i]);
    }
    forall i, j | 0 <= i < j < |people|
      ensures PersonIds(people)[i] != PersonIds(people)[j]
    {
      assert Key(PersonDef, rows[i]) != Key(PersonDef, rows[j]);
      assert Key(PersonDef, rows[i]) == [Text(people[i].id)];
      assert Key(PersonDef, rows[j]) == [Text(people[j].id)];
    }
  }

  lemma DepartmentsAccepted(d: Db, departments: seq<Department>)
    requires WellFormed(d) && DepartmentTable in d.schema && d.schema[DepartmentTable] == DepartmentDef
    requires TableConsistent(d, DepartmentTable)
    requires StoredAll(DepartmentDef.columns, Map(DepartmentBinds, departments), d.data[DepartmentTable])
    ensures forall i :: 0 <= i < |departments| ==> StorableDepartment(departments[i])
    ensures Distinct(DepartmentIds(departments))
    ensures d.data[DepartmentTable] == Map(DepartmentRecord, departments)
  {
    var rows := d.data[DepartmentTable];
    forall i | 0 <= i < |departments|
      ensures StorableDepartment(departments[i]) && rows[i] == DepartmentRecord(departments[i])
    {
      assert KeyPresent(DepartmentDef, rows[i]);
      assert rows[i][DepartmentDef.primaryKey[0]] != Null;
      DepartmentRowOf(departments[i], rows[i]);
    }
    forall i, j | 0 <= i < j < |departments|
      ensures DepartmentIds(departments)[i] != DepartmentIds(departments)[j]
    {
      assert Key(DepartmentDef, rows[i]) != Key(DepartmentDef, rows[j]);
      assert Key(DepartmentDef, rows[i]) == [Text(departments[i].id)];
      assert Key(DepartmentDef, rows[j]) == [Text(departments[j].id)];
    }
  }

  lemma ProjectsAccepted(d: Db, projects: seq<Project>)
    requires WellFormed(d) && ProjectTable in d.schema && d.schema[ProjectTable] == ProjectDef
    requires TableConsistent(d, ProjectTable)
    requires StoredAll(ProjectDef.columns, Map(ProjectBinds, projects), d.data[ProjectTable])
    ensures forall i :: 0 <= i < |projects| ==> StorableProject(projects[i])
    ensures Distinct(ProjectIds(projects))
    ensures d.data[ProjectTable] == Map(ProjectRecord, projects)
  {
    var rows := d.data[ProjectTable];
    forall i | 0 <= i < |projects|
      ensures StorableProject(projects[i]) && rows[i] == ProjectRecord(projects[i])
    {
      assert KeyPresent(ProjectDef, rows[i]);
      assert rows[i][ProjectDef.primaryKey[0]] != Null;
      ProjectRowOf(projects[i], rows[i]);
    }
    forall i, j | 0 <= i < j < |projects|
      ensures ProjectIds(projects)[i] != ProjectIds(projects)[j]
    {
      assert Key(ProjectDef, rows[i]) != Key(ProjectDef, rows[j]);
      assert Key(ProjectDef, rows[i]) == [Text(projects[i].id)];
      assert Key(ProjectDef, rows[j]) == [Text(projects[j].id)];
    }
  }

  lemma DeptAssignmentsAccepted(d: Db, people: seq<Person>, departments: seq<Department>,
                                assignments: seq<DeptAssignment>)
    requires WellFormed(d) && PersonDepartmentTable in d.schema && d.schema[PersonDepartmentTable] == PersonDepartmentDef
    requires PersonTable in d.schema && d.schema[PersonTable] == PersonDef
    requires d.data[PersonTable] == Map(PersonRecord, people)
    requires DepartmentTable in d.schema && d.schema[DepartmentTable] == DepartmentDef
    requires d.data[DepartmentTable] == Map(DepartmentRecord, departments)
    requires TableConsistent(d, PersonDepartmentTable)
    requires StoredAll(PersonDepartmentDef.columns, Map(DeptAssignmentBinds, assignments), d.data[PersonDepartmentTable])
    ensures forall i :: 0 <= i < |assignments| ==> StorableDeptAssignment(assignments[i])
    ensures forall i :: 0 <= i < |assignments| ==> DeptAssignmentRefers(assignments[i], people, departments)
    ensures Distinct(AssignedPeople(assignments))
  {
    var rows := d.data[PersonDepartmentTable];
    forall i | 0 <= i < |assignments|
      ensures StorableDeptAssignment(assignments[i]) && rows[i] == DeptAssignmentRecord(assignments[i])
      ensures DeptAssignmentRefers(assignments[i], people, departments)
    {
      DeptAssignmentRowAccepted(d, people, departments, assignments[i], rows[i]);
    }
    assert rows == Map(DeptAssignmentRecord, assignments);
    assert UniqueKeys(PersonDepartmentDef, rows);
    DeptAssignmentKeysUnique(assignments);
  }

  lemma ProjAssignmentsAccepted(d: Db, people: seq<Person>, projects: seq<Project>,
                                assignments: seq<ProjAssignment>)
    requires WellFormed(d) && PersonProjectTable in d.schema && d.schema[PersonProjectTable] == PersonProjectDef
    requires PersonTable in d.schema && d.schema[PersonTable] == PersonDef
    requires d.data[PersonTable] == Map(PersonRecord, people)
    requires ProjectTable in d.schema && d.schema[ProjectTable] == ProjectDef
    requires d.data[ProjectTable] == Map(ProjectRecord, projects)
    requires TableConsistent(d, PersonProjectTable)
    requires StoredAll(PersonProjectDef.columns, Map(ProjAssignmentBinds, assignments), d.data[PersonProjectTable])
    ensures forall i :: 0 <= i < |assignments| ==> StorableProjAssignment(assignments[i])
    ensures forall i :: 0 <= i < |assignments| ==> ProjAssignmentRefers(assignments[i], people, projects)
    ensures Distinct(assignments)
  {
    var rows := d.data[PersonProjectTable];
    forall i | 0 <= i < |assignments|
      ensures StorableProjAssignment(assignments[i]) && rows[i] == ProjAssignmentRecord(assignments[i])
      ensures ProjAssignmentRefers(assignments[i], people, projects)
    {
      ProjAssignmentRowAccepted(d, people, projects, assignments[i], rows[i]);
    }
    assert rows == Map(ProjAssignmentRecord, assignments);
    assert UniqueKeys(PersonProjectDef, rows);
    ProjAssignmentKeysUnique(assignments);
  }

  /** A department assignment row that the table accepted comes from an assignment that fits and refers. */
  lemma DeptAssignmentRowAccepted(d: Db, people: seq<Person>, departments: seq<Department>,
                                  a: DeptAssignment, row: Record)
    requires WellFormed(d) && PersonDepartmentTable in d.schema && d.schema[PersonDepartmentTable] == PersonDepartmentDef
    requires PersonTable in d.schema && d.schema[PersonTable] == PersonDef
    requires d.data[PersonTable] == Map(PersonRecord, people)
    requires DepartmentTable in d.schema && d.schema[DepartmentTable] == DepartmentDef
    requires d.data[DepartmentTable] == Map(DepartmentRecord, departments)
    requires StoreRow(PersonDepartmentDef.columns, DeptAssignmentBinds(a)) == Ok(row)
    requires KeyPresent(PersonDepartmentDef, row) && ForeignKeysHold(d, PersonDepartmentTable, row)
    ensures StorableDeptAssignment(a) && row == DeptAssignmentRecord(a)
    ensures DeptAssignmentRefers(a, people, departments)
  {
    assert row[PersonDepartmentDef.primaryKey[0]] != Null;
    DeptAssignmentRowOf(a, row);
    assert PersonDepartmentDef.foreignKeys[0] == ForeignKey(0, PersonTable);
    assert PersonDepartmentDef.foreignKeys[1] == ForeignKey(1, DepartmentTable);
    PersonReferenced(d, people, a.personId);
    if |a.departmentId| > 0 {
      DepartmentReferenced(d, departments, a.departmentId);
    }
  }

  /** A project assignment row that the table accepted comes from an assignment that fits and refers. */
  lemma ProjAssignmentRowAccepted(d: Db, people: seq<Person>, projects: seq<Project>,
                                  a: ProjAssignment, row: Record)
    requires WellFormed(d) && PersonProjectTable in d.schema && d.schema[PersonProjectTable] == PersonProjectDef
    requires PersonTable in d.schema && d.schema[PersonTable] == PersonDef
    requires d.data[PersonTable] == Map(PersonRecord, people)
    requires ProjectTable in d.schema && d.schema[ProjectTable] == ProjectDef
    requires d.data[ProjectTable] == Map(ProjectRecord, projects)
    requires StoreRow(PersonProjectDef.columns, ProjAssignmentBinds(a)) == Ok(row)
    requires KeyPresent(PersonProjectDef, row) && ForeignKeysHold(d, PersonProjectTable, row)
    ensures StorableProjAssignment(a) && row == ProjAssignmentRecord(a)
    ensures ProjAssignmentRefers(a, people, projects)
  {
    assert row[PersonProjectDef.primaryKey[0]] != Null;
    assert row[PersonProjectDef.primaryKey[1]] != Null;
    ProjAssignmentRowOf(a, row);
    assert PersonProjectDef.foreignKeys[0] == ForeignKey(0, PersonTable);
    assert PersonProjectDef.foreignKeys[1] == ForeignKey(1, ProjectTable);
    PersonReferenced(d, people, a.personId);
    ProjectReferenced(d, projects, a.projectId);
  }

  /**
   * Into ready tables of a consistent database, a load that went through
   * was given an acceptable data set: the converse of InsertDataLoads.
   */
  lemma InsertDataAccepts(db: Db, people: seq<Person>, departments: seq<Department>, projects: seq<Project>,
                          deptAssignments: seq<DeptAssignment>, projAssignments: seq<ProjAssignment>)
    requires Ready(db) && Consistent(db)
    requires InsertData(db, people, departments, projects, deptAssignments, projAssignments).Ok?
    ensures Loadable(people, departments, projects, deptAssignments, projAssignments)
  {
    InsertDataConsistent(db, people, departments, projects, deptAssignments, projAssignments);
    InsertDataStored(db, people, departments, projects, deptAssignments, projAssignments);
    var d := InsertData(db, people, departments, projects, deptAssignments, projAssignments).value;
    assert TableConsistent(d, PersonTable) && TableConsistent(d, DepartmentTable) && TableConsistent(d, ProjectTable);
    assert TableConsistent(d, PersonDepartmentTable) && TableConsistent(d, PersonProjectTable);
    PeopleAccepted(d, people);
    DepartmentsAccepted(d, departments);
    ProjectsAccepted(d, projects);
    DeptAssignmentsAccepted(d, people, departments, deptAssignments);
    ProjAssignmentsAccepted(d, people, projects, projAssignments);
  }

  /**
   * `insert_data` on the tables `create_tables` leaves: the load commits
   * exactly when the data set is acceptable, and then the tables hold the
   * stored form of the five lists.
   */
  lemma InsertDataOutcome(db: Db, people: seq<Person>, departments: seq<Department>, projects: seq<Project>,
                          deptAssignments: seq<DeptAssignment>, projAssignments: seq<ProjAssignment>)
    requires Ready(db) && Consistent(db)
    ensures InsertData(db, people, departments, projects, deptAssignments, projAssignments).Ok?
        <==> Loadable(people, departments, projects, deptAssignments, projAssignments)
    ensures InsertData(db, people, departments, projects, deptAssignments, projAssignments).Ok?
        ==> InsertData(db, people, departments, projects, deptAssignments, projAssignments)
            == Ok(Loaded(db, people, departments, projects, deptAssignments, projAssignments))
  {
    if InsertData(db, people, departments, projects, deptAssignments, projAssignments).Ok? {
      InsertDataAccepts(db, people, departments, projects, deptAssignments, projAssignments);
    }
    if Loadable(people, departments, projects, deptAssignments, projAssignments) {
      InsertDataLoads(db, people, departments, projects, deptAssignments, projAssignments);
    }
  }

  // ---------------------------------------------------------------------
  // read_data

  /** What `read_data` returns: the people, departments and projects, in cursor order. */
  datatype Snapshot = Snapshot(people: seq<Person>, departments: seq<Department>, projects: seq<Project>)

  /** A column value that must be a string; NULL comes back as None, which the records do not hold. */
  function TextOf(v: SqlValue): (r: Result<string>)
    ensures r.Ok? <==> v.Text?
    ensures r.Ok? ==> v == Text(r.value)
  {
    if v.Text? then Ok(v.s) else Err(TypeError)
  }

  /** A column value that must be a number. */
  function NumOf(v: SqlValue): (r: Result<int>)
    ensures r.Ok? <==> v.Num?
    ensures r.Ok? ==> v == Num(r.value)
  {
    if v.Num? then Ok(v.n) else Err(TypeError)
  }

  /** Python's `bool(v)` on what the driver returns: None and 0 and '' are false. */
  function Truthy(v: SqlValue): (b: bool)
    ensures !b <==> v == Null || v == Text("") || v == Num(0)
  {
    match v
    case Null => false
    case Text(s) => |s| > 0
    case Num(n) => n != 0
    case Timestamp(_, _) => true
  }

  /** `d.date() if hasattr(d, 'date') else d`: a DATE column arrives as a datetime. */
  function DateOf(v: SqlValue): (r: Result<CalendarDate>)
    ensures r.Ok? <==> v.Timestamp?
    ensures r.Ok? ==> r.value == v.date
  {
    if v.Timestamp? then Ok(v.date) else Err(TypeError)
  }

  /** `Person(row[0], row[1], row[2], bool(row[3]))`. */
  function PersonOfRow(row: Record): (r: Result<Person>)
    ensures |row| < 4 ==> r == Err(IndexError)
    ensures |row| >= 4 ==> (r.Ok? <==> row[0].Text? && row[1].Text? && row[2].Num?)
    ensures |row| >= 4 && r.Err? ==> r.error == TypeError
    ensures r.Ok? ==> && row[0] == Text(r.value.id) && row[1] == Text(r.value.name) && row[2] == Num(r.value.age)
                      && (r.value.male <==> Truthy(row[3]))
  {
    if |row| < 4 then Err(IndexError)
    else
      var id :- TextOf(row[0]);
      var name :- TextOf(row[1]);
      var age :- NumOf(row[2]);
      Ok(Person(id, name, age, Truthy(row[3])))
  }

  /** `Department(row[0], row[1], row[2])`. */
  function DepartmentOfRow(row: Record): (r: Result<Department>)
    ensures |row| < 3 ==> r == Err(IndexError)
    ensures |row| >= 3 ==> (r.Ok? <==> row[0].Text? && row[1].Text? && row[2].Num?)
    ensures |row| >= 3 && r.Err? ==> r.error == TypeError
    ensures r.Ok? ==> row[0] == Text(r.value.id) && row[1] == Text(r.value.name) && row[2] == Num(r.value.floor)
  {
    if |row| < 3 then Err(IndexError)
    else
      var id :- TextOf(row[0]);
      var name :- TextOf(row[1]);
      var floor :- NumOf(row[2]);
      Ok(Department(id, name, floor))
  }

  /** One pass of the project loop: the deadline is taken to a date, then `Project(...)` is built. */
  function ProjectOfRow(row: Record): (r: Result<Project>)
    ensures |row| < 5 ==> r == Err(IndexError)
    ensures |row| >= 5 ==> (r.Ok? <==> row[0].Text? && row[1].Text? && row[2].Num? && row[3].Timestamp? && row[4].Text?)
    ensures |row| >= 5 && r.Err? ==> r.error == TypeError
    ensures r.Ok? ==> && row[0] == Text(r.value.id) && row[1] == Text(r.value.name) && row[2] == Num(r.value.budget)
                      && row[3].Timestamp? && row[3].date == r.value.deadline && row[4] == Text(r.value.status)
  {
    if |row| < 5 then Err(IndexError)
    else
      var deadline :- DateOf(row[3]);
      var id :- TextOf(row[0]);
      var name :- TextOf(row[1]);
      var budget :- NumOf(row[2]);
      var status :- TextOf(row[4]);
      Ok(Project(id, name, budget, deadline, status))
  }

  const PersonColumns: seq<string> := ["id", "name", "age", "male"]
  const DepartmentColumns: seq<string> := ["id", "name", "floor"]
  const ProjectColumns: seq<string> := ["id", "name", "budget", "deadline", "status"]

  /** The first SELECT and list comprehension, over the rows in storage order. */
  function PeopleOf(db: Db): (r: Result<seq<Person>>)
    requires WellFormed(db)
    ensures Select(db, PersonTable, PersonColumns).Err? ==> r == Err(Select(db, PersonTable, PersonColumns).error)
    ensures Select(db, PersonTable, PersonColumns).Ok? ==> (r.Ok? <==> forall j :: 0 <= j < |Select(db, PersonTable, PersonColumns).value| ==> PersonOfRow(Select(db, PersonTable, PersonColumns).value[j]).Ok?)
    ensures r.Ok? ==>
      && |r.value| == |db.data[PersonTable]|
      && forall j :: 0 <= j < |r.value| ==> PersonOfRow(Select(db, PersonTable, PersonColumns).value[j]) == Ok(r.value[j])
  {
    var rows :- Select(db, PersonTable, PersonColumns);
    MapAllValues(PersonOfRow, rows);
    var r := MapAll(PersonOfRow, rows);
    if r.Ok? then MapAllOk(PersonOfRow, rows); r else r
  }

  function DepartmentsOf(db: Db): (r: Result<seq<Department>>)
    requires WellFormed(db)
    ensures Select(db, DepartmentTable, DepartmentColumns).Err? ==> r == Err(Select(db, DepartmentTable, DepartmentColumns).error)
    ensures Select(db, DepartmentTable, DepartmentColumns).Ok? ==> (r.Ok? <==> forall j :: 0 <= j < |Select(db, DepartmentTable, DepartmentColumns).value| ==> DepartmentOfRow(Select(db, DepartmentTable, DepartmentColumns).value[j]).Ok?)
    ensures r.Ok? ==>
      && |r.value| == |db.data[DepartmentTable]|
      && forall j :: 0 <= j < |r.value| ==> DepartmentOfRow(Select(db, DepartmentTable, DepartmentColumns).value[j]) == Ok(r.value[j])
  {
    var rows :- Select(db, DepartmentTable, DepartmentColumns);
    MapAllValues(DepartmentOfRow, rows);
    var r := MapAll(DepartmentOfRow, rows);
    if r.Ok? then MapAllOk(DepartmentOfRow, rows); r else r
  }

  function ProjectsOf(db: Db): (r: Result<seq<Project>>)
    requires WellFormed(db)
    ensures Select(db, ProjectTable, ProjectColumns).Err? ==> r == Err(Select(db, ProjectTable, ProjectColumns).error)
    ensures Select(db, ProjectTable, ProjectColumns).Ok? ==> (r.Ok? <==> forall j :: 0 <= j < |Select(db, ProjectTable, ProjectColumns).value| ==> ProjectOfRow(Select(db, ProjectTable, ProjectColumns).value[j]).Ok?)
    ensures r.Ok? ==>
      && |r.value| == |db.data[ProjectTable]|
      && forall j :: 0 <= j < |r.value| ==> ProjectOfRow(Select(db, ProjectTable, ProjectColumns).value[j]) == Ok(r.value[j])
  {
    var rows :- Select(db, ProjectTable, ProjectColumns);
    MapAllValues(ProjectOfRow, rows);
    var r := MapAll(ProjectOfRow, rows);
    if r.Ok? then MapAllOk(ProjectOfRow, rows); r else r
  }

  /**
   * `read_data`: three SELECTs in turn, the first exception ending the
   * read. Each cursor yields the selected rows in an order of the
   * server's choosing, so the lists are those of PeopleOf, DepartmentsOf
   * and ProjectsOf up to order.
   */
  method ReadData(db: Db) returns (r: Result<Snapshot>)
    requires WellFormed(db)
    ensures r.Ok? <==> PeopleOf(db).Ok? && DepartmentsOf(db).Ok? && ProjectsOf(db).Ok?
    ensures r.Ok? ==> multiset(r.value.people) == multiset(PeopleOf(db).value)
    ensures r.Ok? ==> multiset(r.value.departments) == multiset(DepartmentsOf(db).value)
    ensures r.Ok? ==> multiset(r.value.projects) == multiset(ProjectsOf(db).value)
  {
    var selected := Select(db, PersonTable, PersonColumns);
    if selected.Err? {
      return Err(selected.error);
    }
    var rows := CursorOrder(selected.value);
    MapAllPermutation(PersonOfRow, selected.value, rows);
    var people := MapAll(PersonOfRow, rows);
    if people.Err? {
      return Err(people.error);
    }

    selected := Select(db, DepartmentTable, DepartmentColumns);
    if selected.Err? {
      return Err(selected.error);
    }
    rows := CursorOrder(selected.value);
    MapAllPermutation(DepartmentOfRow, selected.value, rows);
    var departments := MapAll(DepartmentOfRow, rows);
    if departments.Err? {
      return Err(departments.error);
    }

    selected := Select(db, ProjectTable, ProjectColumns);
    if selected.Err? {
      return Err(selected.error);
    }
    rows := CursorOrder(selected.value);
    MapAllPermutation(ProjectOfRow, selected.value, rows);
    var projects: seq<Project> := [];
    for i := 0 to |rows|
      invariant MapAll(ProjectOfRow, rows[..i]) == Ok(projects)
    {
      MapAllStep(ProjectOfRow, rows, i, projects);
      var p := ProjectOfRow(rows[i]);
      if p.Err? {
        return Err(p.error);
      }
      projects := projects + [p.value];
    }
    assert rows[..|rows|] == rows;
    r := Ok(Snapshot(people.value, departments.value, projects));
  }

  /** The order a cursor yields rows in: any arrangement of them. */
  method CursorOrder(rows: seq<Record>) returns (order: seq<Record>)
    ensures multiset(order) == multiset(rows)
  {
    order :| multiset(order) == multiset(rows);
  }

  // ---------------------------------------------------------------------
  // What read_data gives back

  /** A stored person with a non-empty name reads back equal, `male` included. */
  lemma PersonRowRoundTrip(p: Person)
    requires |p.id| > 0 && |p.name| > 0
    ensures PersonOfRow(PersonRecord(p)) == Ok(p)
  {
  }

  lemma DepartmentRowRoundTrip(d: Department)
    requires |d.id| > 0 && |d.name| > 0
    ensures DepartmentOfRow(DepartmentRecord(d)) == Ok(d)
  {
  }

  /** The deadline is stored at midnight and comes back as the same date. */
  lemma ProjectRowRoundTrip(p: Project)
    requires |p.id| > 0 && |p.name| > 0 && |p.status| > 0
    ensures ProjectOfRow(ProjectRecord(p)) == Ok(p)
  {
  }

  /** An empty name is stored as NULL and so does not come back as the empty string. */
  lemma EmptyNameNotReadBack(p: Person, d: Department)
    requires p.name == "" && d.name == ""
    ensures PersonRecord(p)[1] == Null && PersonOfRow(PersonRecord(p)) != Ok(p)
    ensures DepartmentRecord(d)[1] == Null && DepartmentOfRow(DepartmentRecord(d)) != Ok(d)
  {
  }

  /** Names and statuses that NULL would not replace. */
  predicate ReadableBack(people: seq<Person>, departments: seq<Department>, projects: seq<Project>)
  {
    && (forall i :: 0 <= i < |people| ==> |people[i].name| > 0)
    && (forall i :: 0 <= i < |departments| ==> |departments[i].name| > 0)
    && (forall i :: 0 <= i < |projects| ==> |projects[i].name| > 0 && |projects[i].status| > 0)
  }

  /** The three SELECTs name every column of their table, in declaration order. */
  lemma SelectsNameAllColumns()
    ensures ColumnNames(PersonDef.columns) == PersonColumns && DistinctNames(PersonDef.columns)
    ensures ColumnNames(DepartmentDef.columns) == DepartmentColumns && DistinctNames(DepartmentDef.columns)
    ensures ColumnNames(ProjectDef.columns) == ProjectColumns && DistinctNames(ProjectDef.columns)
  {
    assert |"id"| == 2 && |"name"| == 4 && |"age"| == 3 && |"male"| == 4 && |"floor"| == 5;
    assert |"budget"| == 6 && |"deadline"| == 8 && |"status"| == 6;
    assert "name" != "male";
  }

  /**
   * After a load into the tables `create_tables` leaves, the three reads
   * return exactly the lists given, in list order when the cursor keeps
   * storage order: reading after writing gives the data set back.
   */
  lemma ReadBackLoaded(db: Db, people: seq<Person>, departments: seq<Department>, projects: seq<Project>,
                       deptAssignments: seq<DeptAssignment>, projAssignments: seq<ProjAssignment>)
    requires Ready(db) && Loadable(people, departments, projects, deptAssignments, projAssignments)
    requires ReadableBack(people, departments, projects)
    ensures var d := Loaded(db, people, departments, projects, deptAssignments, projAssignments);
      && WellFormed(d)
      && PeopleOf(d) == Ok(people) && DepartmentsOf(d) == Ok(departments) && ProjectsOf(d) == Ok(projects)
  {
    InsertDataLoads(db, people, departments, projects, deptAssignments, projAssignments);
    var d := Loaded(db, people, departments, projects, deptAssignments, projAssignments);
    TableNamesDistinct();
    assert d.data[PersonTable] == Map(PersonRecord, people);
    assert d.data[DepartmentTable] == Map(DepartmentRecord, departments);
    assert d.data[ProjectTable] == Map(ProjectRecord, projects);
    PeopleReadBack(d, people);
    DepartmentsReadBack(d, departments);
    ProjectsReadBack(d, projects);
  }

  /** A person table holding the stored people reads back as those people. */
  lemma PeopleReadBack(d: Db, people: seq<Person>)
    requires WellFormed(d) && PersonTable in d.schema && d.schema[PersonTable] == PersonDef
    requires d.data[PersonTable] == Map(PersonRecord, people)
    requires forall i :: 0 <= i < |people| ==> |people[i].id| > 0 && |people[i].name| > 0
    ensures PeopleOf(d) == Ok(people)
  {
    SelectsNameAllColumns();
    SelectAllColumns(d, PersonTable);
    forall i | 0 <= i < |people|
      ensures PersonOfRow(PersonRecord(people[i])) == Ok(people[i])
    {
      PersonRowRoundTrip(people[i]);
    }
    MapAllRoundTrip(PersonOfRow, PersonRecord, people);
  }

  lemma DepartmentsReadBack(d: Db, departments: seq<Department>)
    requires WellFormed(d) && DepartmentTable in d.schema && d.schema[DepartmentTable] == DepartmentDef
    requires d.data[DepartmentTable] == Map(DepartmentRecord, departments)
    requires forall i :: 0 <= i < |departments| ==> |departments[i].id| > 0 && |departments[i].name| > 0
    ensures DepartmentsOf(d) == Ok(departments)
  {
    SelectsNameAllColumns();
    SelectAllColumns(d, DepartmentTable);
    forall i | 0 <= i < |departments|
      ensures DepartmentOfRow(DepartmentRecord(departments[i])) == Ok(departments[i])
    {
      DepartmentRowRoundTrip(departments[i]);
    }
    MapAllRoundTrip(DepartmentOfRow, DepartmentRecord, departments);
  }

  lemma ProjectsReadBack(d: Db, projects: seq<Project>)
    requires WellFormed(d) && ProjectTable in d.schema && d.schema[ProjectTable] == ProjectDef
    requires d.data[ProjectTable] == Map(ProjectRecord, projects)
    requires forall i :: 0 <= i < |projects| ==>
      |projects[i].id| > 0 && |projects[i].name| > 0 && |projects[i].status| > 0
    ensures ProjectsOf(d) == Ok(projects)
  {
    SelectsNameAllColumns();
    SelectAllColumns(d, ProjectTable);
    forall i | 0 <= i < |projects|
      ensures ProjectOfRow(ProjectRecord(projects[i])) == Ok(projects[i])
    {
      ProjectRowRoundTrip(projects[i]);
    }
    MapAllRoundTrip(ProjectOfRow, ProjectRecord, projects);
  }

  /** Before `create_tables` has run, the first SELECT raises. */
  lemma ReadBeforeCreate(db: Db)
    requires WellFormed(db) && PersonTable !in db.schema
    ensures PeopleOf(db) == Err(DatabaseError)
  {
  }

  /** The reads never look at the assignment tables: what they hold does not change the result. */
  lemma ReadIgnoresAssignments(db: Db, deptRows: seq<Record>, projRows: seq<Record>)
    requires WellFormed(db) && PersonDepartmentTable in db.schema && PersonProjectTable in db.schema
    requires WellFormed(Db(db.schema, db.data[PersonDepartmentTable := deptRows][PersonProjectTable := projRows]))
    ensures var d := Db(db.schema, db.data[PersonDepartmentTable := deptRows][PersonProjectTable := projRows]);
      PeopleOf(d) == PeopleOf(db) && DepartmentsOf(d) == DepartmentsOf(db) && ProjectsOf(d) == ProjectsOf(db)
  {
    TableNamesDistinct();
  }
}
