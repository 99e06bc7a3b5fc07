/**
 * The delimited-text backend. A file is a sequence of rows of cell
 * strings; `FormatLine` and `ParseLine` relate a row to its text line
 * for rows the csv module writes without quoting.
 */
module CsvHandler {
  import opened Common
  import opened Text
  import opened Dates
  import opened Model

  type Row = seq<string>

  const PeopleHeader: Row := ["id", "name", "age", "male"]
  const DepartmentsHeader: Row := ["id", "name", "floor"]
  const ProjectsHeader: Row := ["id", "name", "budget", "deadline", "status"]
  const DeptAssignmentsHeader: Row := ["person_id", "department_id", "job", "salary"]
  const ProjAssignmentsHeader: Row := ["person_id", "project_id"]

  // ---------------------------------------------------------------------
  // Writing: one row per record, every value through str()

  function PersonCells(p: Person): Row
  {
    [p.id, p.name, IntToString(p.age), BoolToString(p.male)]
  }

  function DepartmentCells(d: Department): Row
  {
    [d.id, d.name, IntToString(d.floor)]
  }

  /** The copied dict with `deadline` replaced by its ISO text. */
  function ProjectCells(p: Project): Row
  {
    [p.id, p.name, IntToString(p.budget), IsoFormat(p.deadline), p.status]
  }

  function DeptAssignmentCells(a: DeptAssignment): Row
  {
    [a.personId, a.departmentId, a.job, IntToString(a.salary)]
  }

  function ProjAssignmentCells(a: ProjAssignment): Row
  {
    [a.personId, a.projectId]
  }

  /** The rows of a written people file: header, then one row per person. */
  function PeopleTable(people: seq<Person>): seq<Row>
  {
    [PeopleHeader] + Map(PersonCells, people)
  }

  function DepartmentsTable(departments: seq<Department>): seq<Row>
  {
    [DepartmentsHeader] + Map(DepartmentCells, departments)
  }

  function ProjectsTable(projects: seq<Project>): seq<Row>
  {
    [ProjectsHeader] + Map(ProjectCells, projects)
  }

  /** `write_people`: the header, then `writerow` for each person in turn. */
  method WritePeople(people: seq<Person>) returns (table: seq<Row>)
    ensures table == PeopleTable(people)
  {
    table := [PeopleHeader];
    for i := 0 to |people|
      invariant table == PeopleTable(people[..i])
    {
      MapSnoc(PersonCells, people, i);
      table := table + [PersonCells(people[i])];
    }
    assert people[..|people|] == people;
  }

  /** `write_departments`: the header, then `writerow` for each department in turn. */
  method WriteDepartments(departments: seq<Department>) returns (table: seq<Row>)
    ensures table == DepartmentsTable(departments)
  {
    table := [DepartmentsHeader];
    for i := 0 to |departments|
      invariant table == DepartmentsTable(departments[..i])
    {
      MapSnoc(DepartmentCells, departments, i);
      table := table + [DepartmentCells(departments[i])];
    }
    assert departments[..|departments|] == departments;
  }

  /** `write_projects`: the header, then each project's copied dict with an ISO deadline. */
  method WriteProjects(projects: seq<Project>) returns (table: seq<Row>)
    ensures table == ProjectsTable(projects)
  {
    table := [ProjectsHeader];
    for i := 0 to |projects|
      invariant table == ProjectsTable(projects[..i])
    {
      MapSnoc(ProjectCells, projects, i);
      table := table + [ProjectCells(projects[i])];
    }
    assert projects[..|projects|] == projects;
  }

  /** `write_dept_assignments`: the header row, then `writerows` of the tuples. */
  function WriteDeptAssignments(assignments: seq<DeptAssignment>): (rows: seq<Row>)
    ensures |rows| == |assignments| + 1 && rows[0] == DeptAssignmentsHeader
    ensures forall i :: 0 <= i < |assignments| ==> DeptAssignmentOfRow(rows[i + 1]) == Ok(assignments[i])
  {
    var cells := Map(DeptAssignmentCells, assignments);
    var rows := [DeptAssignmentsHeader] + cells;
    DeptAssignmentCellsDecode(assignments);
    assert forall i :: 0 <= i < |assignments| ==> rows[i + 1] == cells[i];
    rows
  }

  /** Each written assignment row reads back as its assignment. */
  lemma DeptAssignmentCellsDecode(assignments: seq<DeptAssignment>)
    ensures forall i :: 0 <= i < |assignments| ==> DeptAssignmentOfRow(Map(DeptAssignmentCells, assignments)[i]) == Ok(assignments[i])
  {
    forall i | 0 <= i < |assignments|
      ensures DeptAssignmentOfRow(Map(DeptAssignmentCells, assignments)[i]) == Ok(assignments[i])
    {
      ParseIntToString(assignments[i].salary);
    }
  }

  /** `write_proj_assignments`: the header row, then `writerows` of the tuples. */
  function WriteProjAssignments(assignments: seq<ProjAssignment>): (rows: seq<Row>)
    ensures |rows| == |assignments| + 1 && rows[0] == ProjAssignmentsHeader
    ensures forall i :: 0 <= i < |assignments| ==> rows[i + 1] == [assignments[i].personId, assignments[i].projectId]
  {
    [ProjAssignmentsHeader] + Map(ProjAssignmentCells, assignments)
  }

  // ---------------------------------------------------------------------
  // Reading with csv.DictReader: the first row names the fields, blank
  // rows are skipped, a short row leaves its missing fields at None.

  /** The position of the last header cell equal to `key` (later duplicates win in the dict). */
  function LastIndexOf(header: Row, key: string): (r: Option<nat>)
    ensures r.Some? ==> r.value < |header| && header[r.value] == key
    ensures r.None? <==> key !in header
  {
    if header == [] then None
    else if header[|header| - 1] == key then Some(|header| - 1)
    else LastIndexOf(header[..|header| - 1], key)
  }

  /** `row[key]`: KeyError for a field the header lacks, None past the row's end. */
  function Field(header: Row, row: Row, key: string): (r: Result<Option<string>>)
    ensures r.Err? <==> key !in header
  {
    match LastIndexOf(header, key)
    case None => Err(KeyError)
    case Some(i) => Ok(if i < |row| then Some(row[i]) else None)
  }

  /** A row the reader does not skip: one with at least one cell. */
  predicate NonBlank(row: Row)
  {
    row != []
  }

  /** The records DictReader yields: every row after the header that is not blank. */
  function DataRows(table: seq<Row>): (rows: seq<Row>)
    ensures table == [] ==> rows == []
    ensures table != [] ==> |rows| <= |table| - 1 && forall row :: row in rows <==> row in table[1..] && row != []
  {
    if table == [] then []
    else
      FilterComplete(NonBlank, table[1..]);
      Filter(NonBlank, table[1..])
  }

  /**
   * The records come in file order, one per non-blank row: a row added at
   * the end of the file adds one record at the end, or none if it is blank.
   */
  lemma DataRowsSnoc(table: seq<Row>, row: Row)
    requires table != []
    ensures DataRows([table[0]]) == []
    ensures DataRows(table + [row]) == DataRows(table) + (if row == [] then [] else [row])
  {
    assert (table + [row])[1..] == table[1..] + [row];
    FilterAppend(NonBlank, table[1..], [row]);
  }

  /** `int(cell)`: TypeError for a missing cell. */
  function IntOfField(cell: Option<string>): Result<int>
  {
    match cell
    case None => Err(TypeError)
    case Some(s) => ParseInt(s)
  }

  /** `date.fromisoformat(cell)`: TypeError for a missing cell. */
  function DateOfField(cell: Option<string>): Result<CalendarDate>
  {
    match cell
    case None => Err(TypeError)
    case Some(s) => FromIsoFormat(s)
  }

  /** A text field: a missing cell is an error here (Python would keep None). */
  function TextOfField(cell: Option<string>): Result<string>
  {
    match cell
    case None => Err(TypeError)
    case Some(s) => Ok(s)
  }

  /** `Person(row["id"], row["name"], int(row["age"]), row["male"] == "True")`. */
  function PersonOfRecord(header: Row, row: Row): (r: Result<Person>)
    ensures "id" !in header || "name" !in header || "age" !in header ==> r == Err(KeyError)
    ensures r.Ok? ==> && Field(header, row, "id") == Ok(Some(r.value.id))
                      && Field(header, row, "name") == Ok(Some(r.value.name))
                      && Field(header, row, "age").Ok? && IntOfField(Field(header, row, "age").value) == Ok(r.value.age)
                      && (r.value.male <==> Field(header, row, "male") == Ok(Some("True")))
  {
    var id :- Field(header, row, "id");
    var name :- Field(header, row, "name");
    var ageCell :- Field(header, row, "age");
    var age :- IntOfField(ageCell);
    var male :- Field(header, row, "male");
    var id' :- TextOfField(id);
    var name' :- TextOfField(name);
    Ok(Person(id', name', age, male == Some("True")))
  }

  /** `Department(row["id"], row["name"], int(row["floor"]))`. */
  function DepartmentOfRecord(header: Row, row: Row): (r: Result<Department>)
    ensures "id" !in header || "name" !in header || "floor" !in header ==> r == Err(KeyError)
    ensures r.Ok? ==> && Field(header, row, "id") == Ok(Some(r.value.id))
                      && Field(header, row, "name") == Ok(Some(r.value.name))
                      && Field(header, row, "floor").Ok? && IntOfField(Field(header, row, "floor").value) == Ok(r.value.floor)
  {
    var id :- Field(header, row, "id");
    var name :- Field(header, row, "name");
    var floorCell :- Field(header, row, "floor");
    var floor :- IntOfField(floorCell);
    var id' :- TextOfField(id);
    var name' :- TextOfField(name);
    Ok(Department(id', name', floor))
  }

  /** `Project(row["id"], row["name"], int(row["budget"]), date.fromisoformat(row["deadline"]), row["status"])`. */
  function ProjectOfRecord(header: Row, row: Row): (r: Result<Project>)
    ensures "id" !in header || "name" !in header || "budget" !in header ==> r == Err(KeyError)
    ensures r.Ok? ==> && Field(header, row, "id") == Ok(Some(r.value.id))
                      && Field(header, row, "name") == Ok(Some(r.value.name))
                      && Field(header, row, "budget").Ok? && IntOfField(Field(header, row, "budget").value) == Ok(r.value.budget)
                      && Field(header, row, "deadline").Ok? && DateOfField(Field(header, row, "deadline").value) == Ok(r.value.deadline)
                      && Field(header, row, "status") == Ok(Some(r.value.status))
  {
    var id :- Field(header, row, "id");
    var name :- Field(header, row, "name");
    var budgetCell :- Field(header, row, "budget");
    var budget :- IntOfField(budgetCell);
    var deadlineCell :- Field(header, row, "deadline");
    var deadline :- DateOfField(deadlineCell);
    var status :- Field(header, row, "status");
    var id' :- TextOfField(id);
    var name' :- TextOfField(name);
    var status' :- TextOfField(status);
    Ok(Project(id', name', budget, deadline, status'))
  }

  /** `read_people`: the conversion of every record, or the first exception. */
  function ReadPeople(table: seq<Row>): (r: Result<seq<Person>>)
    ensures table == [] ==> r == Ok([])
    ensures table != [] ==> (r.Ok? <==> forall i :: 0 <= i < |DataRows(table)| ==> PersonOfRecord(table[0], DataRows(table)[i]).Ok?)
    ensures r.Ok? && table != [] ==>
      && |r.value| == |DataRows(table)|
      && forall i :: 0 <= i < |r.value| ==> PersonOfRecord(table[0], DataRows(table)[i]) == Ok(r.value[i])
  {
    if table == [] then Ok([])
    else
      var decode := (row: Row) => PersonOfRecord(table[0], row);
      MapAllValues(decode, DataRows(table));
      var r := MapAll(decode, DataRows(table));
      if r.Ok? then MapAllOk(decode, DataRows(table)); r else r
  }

  function ReadDepartments(table: seq<Row>): (r: Result<seq<Department>>)
    ensures table == [] ==> r == Ok([])
    ensures table != [] ==> (r.Ok? <==> forall i :: 0 <= i < |DataRows(table)| ==> DepartmentOfRecord(table[0], DataRows(table)[i]).Ok?)
    ensures r.Ok? && table != [] ==>
      && |r.value| == |DataRows(table)|
      && forall i :: 0 <= i < |r.value| ==> DepartmentOfRecord(table[0], DataRows(table)[i]) == Ok(r.value[i])
  {
    if table == [] then Ok([])
    else
      var decode := (row: Row) => DepartmentOfRecord(table[0], row);
      MapAllValues(decode, DataRows(table));
      var r := MapAll(decode, DataRows(table));
      if r.Ok? then MapAllOk(decode, DataRows(table)); r else r
  }

  function ReadProjects(table: seq<Row>): (r: Result<seq<Project>>)
    ensures table == [] ==> r == Ok([])
    ensures table != [] ==> (r.Ok? <==> forall i :: 0 <= i < |DataRows(table)| ==> ProjectOfRecord(table[0], DataRows(table)[i]).Ok?)
    ensures r.Ok? && table != [] ==>
      && |r.value| == |DataRows(table)|
      && forall i :: 0 <= i < |r.value| ==> ProjectOfRecord(table[0], DataRows(table)[i]) == Ok(r.value[i])
  {
    if table == [] then Ok([])
    else
      var decode := (row: Row) => ProjectOfRecord(table[0], row);
      MapAllValues(decode, DataRows(table));
      var r := MapAll(decode, DataRows(table));
      if r.Ok? then MapAllOk(decode, DataRows(table)); r else r
  }

  // ---------------------------------------------------------------------
  // Reading assignments with csv.reader: next() drops the header, rows are
  // read by position and blank rows are not skipped.

  /** `(row[0], row[1], row[2], int(row[3]))`. */
  function DeptAssignmentOfRow(row: Row): Result<DeptAssignment>
  {
    if |row| < 4 then Err(IndexError)
    else
      var salary :- ParseInt(row[3]);
      Ok(DeptAssignment(row[0], row[1], row[2], salary))
  }

  /** `(row[0], row[1])`. */
  function ProjAssignmentOfRow(row: Row): Result<ProjAssignment>
  {
    if |row| < 2 then Err(IndexError) else Ok(ProjAssignment(row[0], row[1]))
  }

  /** `read_dept_assignments`: StopIteration on an empty file, else every row after the first. */
  function ReadDeptAssignments(table: seq<Row>): (r: Result<seq<DeptAssignment>>)
    ensures table == [] ==> r == Err(StopIteration)
    ensures table != [] ==> (r.Ok? <==> forall i :: 1 <= i < |table| ==> DeptAssignmentOfRow(table[i]).Ok?)
    ensures r.Ok? ==> |r.value| == |table| - 1 && forall i :: 0 <= i < |r.value| ==> DeptAssignmentOfRow(table[i + 1]) == Ok(r.value[i])
  {
    if table == [] then Err(StopIteration)
    else
      MapAllValues(DeptAssignmentOfRow, table[1..]);
      var r := MapAll(DeptAssignmentOfRow, table[1..]);
      if r.Ok? then MapAllOk(DeptAssignmentOfRow, table[1..]); r else r
  }

  function ReadProjAssignments(table: seq<Row>): (r: Result<seq<ProjAssignment>>)
    ensures table == [] ==> r == Err(StopIteration)
    ensures table != [] ==> (r.Ok? <==> forall i :: 1 <= i < |table| ==> |table[i]| >= 2)
    ensures r.Ok? ==> |r.value| == |table| - 1 && forall i :: 0 <= i < |r.value| ==> r.value[i] == ProjAssignment(table[i + 1][0], table[i + 1][1])
  {
    if table == [] then Err(StopIteration)
    else
      MapAllValues(ProjAssignmentOfRow, table[1..]);
      var r := MapAll(ProjAssignmentOfRow, table[1..]);
      if r.Ok? then MapAllOk(ProjAssignmentOfRow, table[1..]); r else r
  }

  // ---------------------------------------------------------------------
  // Round trips

  /** A written table has no blank data row, so DictReader sees every record. */
  lemma DataRowsOfWritten<T>(header: Row, cells: T -> Row, xs: seq<T>)
    requires forall x :: |cells(x)| > 0
    ensures DataRows([header] + Map(cells, xs)) == Map(cells, xs)
  {
    var rows := Map(cells, xs);
    assert ([header] + rows)[1..] == rows;
    FilterAll(NonBlank, rows);
  }

  lemma {:induction false} LastIndexAt(header: Row, key: string, i: nat)
    requires i < |header| && header[i] == key
    requires forall j :: i < j < |header| ==> header[j] != key
    ensures LastIndexOf(header, key) == Some(i)
  {
    if i < |header| - 1 {
      var h := header[..|header| - 1];
      assert forall j :: i < j < |h| ==> h[j] == header[j];
      LastIndexAt(h, key, i);
    }
  }

  /** A key whose last occurrence in the header is at position i reads the row's i-th cell. */
  lemma FieldAt(header: Row, row: Row, key: string, i: nat)
    requires i < |header| <= |row| && header[i] == key
    requires forall j :: i < j < |header| ==> header[j] != key
    ensures Field(header, row, key) == Ok(Some(row[i]))
  {
    LastIndexAt(header, key, i);
  }

  /** A written person row converts back to the same person. */
  lemma PersonDecodes(p: Person)
    ensures PersonOfRecord(PeopleHeader, PersonCells(p)) == Ok(p)
  {
    var row := PersonCells(p);
    FieldAt(PeopleHeader, row, "id", 0);
    FieldAt(PeopleHeader, row, "name", 1);
    FieldAt(PeopleHeader, row, "age", 2);
    FieldAt(PeopleHeader, row, "male", 3);
    ParseIntToString(p.age);
  }

  lemma DepartmentDecodes(d: Department)
    ensures DepartmentOfRecord(DepartmentsHeader, DepartmentCells(d)) == Ok(d)
  {
    var row := DepartmentCells(d);
    FieldAt(DepartmentsHeader, row, "id", 0);
    FieldAt(DepartmentsHeader, row, "name", 1);
    FieldAt(DepartmentsHeader, row, "floor", 2);
    ParseIntToString(d.floor);
  }

  lemma ProjectDecodes(p: Project)
    ensures ProjectOfRecord(ProjectsHeader, ProjectCells(p)) == Ok(p)
  {
    ProjectsHeaderFields(ProjectCells(p));
    ParseIntToString(p.budget);
    IsoRoundTrip(p.deadline);
  }

  /** Under the projects header each field is the cell in its column. */
  lemma ProjectsHeaderFields(row: Row)
    requires |row| >= 5
    ensures Field(ProjectsHeader, row, "id") == Ok(Some(row[0]))
    ensures Field(ProjectsHeader, row, "name") == Ok(Some(row[1]))
    ensures Field(ProjectsHeader, row, "budget") == Ok(Some(row[2]))
    ensures Field(ProjectsHeader, row, "deadline") == Ok(Some(row[3]))
    ensures Field(ProjectsHeader, row, "status") == Ok(Some(row[4]))
  {
    FieldAt(ProjectsHeader, row, "id", 0);
    FieldAt(ProjectsHeader, row, "name", 1);
    FieldAt(ProjectsHeader, row, "budget", 2);
    FieldAt(ProjectsHeader, row, "deadline", 3);
    FieldAt(ProjectsHeader, row, "status", 4);
  }

  /** Every person written reads back equal (same strings, numbers and booleans), in order. */
  lemma PeopleRoundTrip(people: seq<Person>)
    ensures ReadPeople(PeopleTable(people)) == Ok(people)
  {
    DataRowsOfWritten(PeopleHeader, PersonCells, people);
    var dec := (row: Row) => PersonOfRecord(PeopleHeader, row);
    forall i | 0 <= i < |people| ensures dec(PersonCells(people[i])) == Ok(people[i]) {
      PersonDecodes(people[i]);
    }
    MapAllRoundTrip(dec, PersonCells, people);
  }

  lemma DepartmentsRoundTrip(departments: seq<Department>)
    ensures ReadDepartments(DepartmentsTable(departments)) == Ok(departments)
  {
    DataRowsOfWritten(DepartmentsHeader, DepartmentCells, departments);
    var dec := (row: Row) => DepartmentOfRecord(DepartmentsHeader, row);
    forall i | 0 <= i < |departments| ensures dec(DepartmentCells(departments[i])) == Ok(departments[i]) {
      DepartmentDecodes(departments[i]);
    }
    MapAllRoundTrip(dec, DepartmentCells, departments);
  }

  lemma ProjectsRoundTrip(projects: seq<Project>)
    ensures ReadProjects(ProjectsTable(projects)) == Ok(projects)
  {
    DataRowsOfWritten(ProjectsHeader, ProjectCells, projects);
    var dec := (row: Row) => ProjectOfRecord(ProjectsHeader, row);
    forall i | 0 <= i < |projects| ensures dec(ProjectCells(projects[i])) == Ok(projects[i]) {
      ProjectDecodes(projects[i]);
    }
    MapAllRoundTrip(dec, ProjectCells, projects);
  }

  lemma DeptAssignmentsRoundTrip(assignments: seq<DeptAssignment>)
    ensures ReadDeptAssignments(WriteDeptAssignments(assignments)) == Ok(assignments)
  {
    assert WriteDeptAssignments(assignments)[1..] == Map(DeptAssignmentCells, assignments);
    forall i | 0 <= i < |assignments|
      ensures DeptAssignmentOfRow(DeptAssignmentCells(assignments[i])) == Ok(assignments[i])
    {
      ParseIntToString(assignments[i].salary);
    }
    MapAllRoundTrip(DeptAssignmentOfRow, DeptAssignmentCells, assignments);
  }

  lemma ProjAssignmentsRoundTrip(assignments: seq<ProjAssignment>)
    ensures ReadProjAssignments(WriteProjAssignments(assignments)) == Ok(assignments)
  {
    assert WriteProjAssignments(assignments)[1..] == Map(ProjAssignmentCells, assignments);
    MapAllRoundTrip(ProjAssignmentOfRow, ProjAssignmentCells, assignments);
  }

  /**
   * The `male` cell is compared with "True" and nothing else: any other
   * text, "true" or "1" included, reads as False without an error.
   */
  lemma MaleCellLenient(id: string, name: string, age: int, male: string)
    ensures PersonOfRecord(PeopleHeader, [id, name, IntToString(age), male])
         == Ok(Person(id, name, age, male == "True"))
  {
    var row := [id, name, IntToString(age), male];
    FieldAt(PeopleHeader, row, "id", 0);
    FieldAt(PeopleHeader, row, "name", 1);
    FieldAt(PeopleHeader, row, "age", 2);
    FieldAt(PeopleHeader, row, "male", 3);
    ParseIntToString(age);
  }

  /** A project row whose deadline cell is not an ISO date raises ValueError. */
  lemma BadDeadlineRow(p: Project, text: string)
    requires FromIsoFormat(text).Err?
    ensures ProjectOfRecord(ProjectsHeader, ProjectCells(p)[3 := text]) == Err(ValueError)
  {
    var bad := ProjectCells(p)[3 := text];
    assert bad == [p.id, p.name, IntToString(p.budget), text, p.status];
    ProjectsHeaderFields(bad);
    ParseIntToString(p.budget);
    DeadlineRefused(ProjectsHeader, bad, text);
  }

  /** With id, name and a numeric budget present, a deadline that does not parse is what is raised. */
  lemma DeadlineRefused(header: Row, row: Row, text: string)
    requires Field(header, row, "id").Ok? && Field(header, row, "name").Ok?
    requires Field(header, row, "budget").Ok? && IntOfField(Field(header, row, "budget").value).Ok?
    requires Field(header, row, "deadline") == Ok(Some(text)) && FromIsoFormat(text).Err?
    ensures ProjectOfRecord(header, row) == Err(FromIsoFormat(text).error)
  {
  }

  /** A deadline cell that is not a real ISO date makes the whole read fail with ValueError. */
  lemma BadDeadlineFailsRead(projects: seq<Project>, k: nat, text: string)
    requires k < |projects| && FromIsoFormat(text).Err?
    ensures ReadProjects([ProjectsHeader] + Map(ProjectCells, projects)[k := ProjectCells(projects[k])[3 := text]])
         == Err(ValueError)
  {
    var rows := Map(ProjectCells, projects)[k := ProjectCells(projects[k])[3 := text]];
    var table := [ProjectsHeader] + rows;
    var dec := (row: Row) => ProjectOfRecord(ProjectsHeader, row);
    assert table[1..] == rows;
    FilterAll(NonBlank, rows);
    forall i | 0 <= i < k ensures dec(rows[i]).Ok? {
      ProjectDecodes(projects[i]);
    }
    BadDeadlineRow(projects[k], text);
    MapAllErr(dec, rows, k);
  }

  // ---------------------------------------------------------------------
  // Lines: a row joined by the delimiter, for cells the csv module leaves
  // unquoted.

  /** A cell csv writes verbatim: no delimiter, quote or line break. */
  predicate PlainCell(cell: string, delimiter: char)
  {
    delimiter !in cell && '"' !in cell && '\r' !in cell && '\n' !in cell
  }

  /** A delimiter that never occurs in the text of a number, a date or a boolean. */
  predicate SafeDelimiter(delimiter: char)
  {
    !IsDigit(delimiter) && !IsLetter(delimiter) && delimiter != '-'
    && delimiter != '"' && delimiter != '\r' && delimiter != '\n'
  }

  function JoinCells(cells: Row, delimiter: char): string
  {
    if cells == [] then ""
    else if |cells| == 1 then cells[0]
    else cells[0] + [delimiter] + JoinCells(cells[1..], delimiter)
  }

  /** The fields of a non-empty line: the text between delimiters. */
  function SplitFields(s: string, delimiter: char): (fields: seq<string>)
    ensures |fields| >= 1
    ensures forall i :: 0 <= i < |fields| ==> delimiter !in fields[i]
    ensures JoinCells(fields, delimiter) == s
  {
    if s == [] then [""]
    else
      var rest := SplitFields(s[1..], delimiter);
      if s[0] == delimiter then
        assert s == [delimiter] + s[1..];
        [""] + rest
      else
        var fields := [[s[0]] + rest[0]] + rest[1..];
        assert fields[1..] == rest[1..];
        assert s == [s[0]] + s[1..];
        fields
  }

  /** `writer.writerow(cells)` for an unquoted row (a lone empty cell would be quoted). */
  function FormatLine(cells: Row, delimiter: char): string
    requires forall i :: 0 <= i < |cells| ==> PlainCell(cells[i], delimiter)
    requires cells != [""]
  {
    JoinCells(cells, delimiter)
  }

  /** What csv.reader yields for a line without quotes: [] for a blank line. */
  function ParseLine(line: string, delimiter: char): Row
    requires '"' !in line && '\r' !in line && '\n' !in line
  {
    if line == "" then [] else SplitFields(line, delimiter)
  }

  lemma {:induction false} SplitPlain(c: string, delimiter: char)
    requires delimiter !in c
    ensures SplitFields(c, delimiter) == [c]
  {
    if c != [] {
      SplitPlain(c[1..], delimiter);
      assert [c[0]] + c[1..] == c;
    }
  }

  lemma {:induction false} SplitCons(c: string, delimiter: char, rest: string)
    requires delimiter !in c
    ensures SplitFields(c + [delimiter] + rest, delimiter) == [c] + SplitFields(rest, delimiter)
  {
    if c == [] {
      assert c + [delimiter] + rest == [delimiter] + rest;
      assert ([delimiter] + rest)[1..] == rest;
    } else {
      SplitCons(c[1..], delimiter, rest);
      assert (c + [delimiter] + rest)[1..] == c[1..] + [delimiter] + rest;
      assert [c[0]] + c[1..] == c;
    }
  }

  lemma {:induction false} JoinSplit(cells: Row, delimiter: char)
    requires |cells| >= 1
    requires forall i :: 0 <= i < |cells| ==> delimiter !in cells[i]
    ensures SplitFields(JoinCells(cells, delimiter), delimiter) == cells
  {
    if |cells| == 1 {
      SplitPlain(cells[0], delimiter);
    } else {
      JoinSplit(cells[1..], delimiter);
      SplitCons(cells[0], delimiter, JoinCells(cells[1..], delimiter));
      assert [cells[0]] + cells[1..] == cells;
    }
  }

  lemma {:induction false} JoinPlain(cells: Row, delimiter: char, c: char)
    requires c != delimiter
    requires forall i :: 0 <= i < |cells| ==> c !in cells[i]
    ensures c !in JoinCells(cells, delimiter)
  {
    if |cells| > 1 {
      JoinPlain(cells[1..], delimiter, c);
    }
  }

  /** A row written as a line is read back as the same cells. */
  lemma LineRoundTrip(cells: Row, delimiter: char)
    requires delimiter != '"' && delimiter != '\r' && delimiter != '\n'
    requires forall i :: 0 <= i < |cells| ==> PlainCell(cells[i], delimiter)
    requires cells != [""]
    ensures '"' !in FormatLine(cells, delimiter)
    ensures '\r' !in FormatLine(cells, delimiter) && '\n' !in FormatLine(cells, delimiter)
    ensures ParseLine(FormatLine(cells, delimiter), delimiter) == cells
  {
    JoinPlain(cells, delimiter, '"');
    JoinPlain(cells, delimiter, '\r');
    JoinPlain(cells, delimiter, '\n');
    if cells != [] {
      JoinSplit(cells, delimiter);
      if |cells| == 1 {
        assert cells[0] != "";
      }
    }
  }

  /** Text made of digits and minus signs. */
  predicate DigitsAndDashes(s: string)
  {
    forall k :: 0 <= k < |s| ==> IsDigit(s[k]) || s[k] == '-'
  }

  /** Such text never holds a safe delimiter, a quote or a line break. */
  lemma DigitsAndDashesPlain(s: string, delimiter: char)
    requires SafeDelimiter(delimiter) && DigitsAndDashes(s)
    ensures PlainCell(s, delimiter)
  {
  }

  lemma IntTextDigits(i: int)
    ensures DigitsAndDashes(IntToString(i))
  {
    if i < 0 {
      var digits := NatToString(-i);
      assert IntToString(i) == "-" + digits;
      assert forall k :: 1 <= k < |IntToString(i)| ==> IntToString(i)[k] == digits[k - 1];
    }
  }

  lemma IsoTextDigits(d: CalendarDate)
    ensures DigitsAndDashes(IsoFormat(d))
  {
    var s := IsoFormat(d);
    forall k | 0 <= k < |s|
      ensures IsDigit(s[k]) || s[k] == '-'
    {
      if k < 4 {
        assert s[..4][k] == s[k];
      } else if 5 <= k < 7 {
        assert s[5..7][k - 5] == s[k];
      } else if k >= 8 {
        assert s[8..][k - 8] == s[k];
      }
    }
  }

  /** The text of numbers, booleans and dates never holds a safe delimiter, a quote or a line break. */
  lemma ValueCellsPlain(delimiter: char, i: int, b: bool, d: CalendarDate)
    requires SafeDelimiter(delimiter)
    ensures PlainCell(IntToString(i), delimiter)
    ensures PlainCell(BoolToString(b), delimiter)
    ensures PlainCell(IsoFormat(d), delimiter)
  {
    IntTextDigits(i);
    DigitsAndDashesPlain(IntToString(i), delimiter);
    IsoTextDigits(d);
    DigitsAndDashesPlain(IsoFormat(d), delimiter);
    BoolTextPlain(b, delimiter);
  }

  /** "True" and "False" are letters only. */
  lemma BoolTextPlain(b: bool, delimiter: char)
    requires SafeDelimiter(delimiter)
    ensures PlainCell(BoolToString(b), delimiter)
  {
    var s := BoolToString(b);
    assert s == if b then ['T', 'r', 'u', 'e'] else ['F', 'a', 'l', 's', 'e'];
    assert forall k :: 0 <= k < |s| ==> IsLetter(s[k]);
  }

  /** Records whose text fields are plain are written as rows that survive the line format. */
  lemma PersonLineRoundTrip(p: Person, delimiter: char)
    requires SafeDelimiter(delimiter)
    requires PlainCell(p.id, delimiter) && PlainCell(p.name, delimiter)
    ensures '"' !in FormatLine(PersonCells(p), delimiter)
    ensures '\r' !in FormatLine(PersonCells(p), delimiter) && '\n' !in FormatLine(PersonCells(p), delimiter)
    ensures ParseLine(FormatLine(PersonCells(p), delimiter), delimiter) == PersonCells(p)
  {
    ValueCellsPlain(delimiter, p.age, p.male, Date(1, 1, 1));
    LineRoundTrip(PersonCells(p), delimiter);
  }
}
