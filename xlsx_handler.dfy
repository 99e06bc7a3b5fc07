/**
 * The spreadsheet backend. A worksheet is a grid of typed cells built up
 * by `append`; saving turns empty strings into empty cells and plain
 * dates into date-times, and loading pads every row to the sheet's width.
 */
module XlsxHandler {
  import opened Common
  import opened Text
  import opened Dates
  import opened Model

  /** A cell value as openpyxl hands it over; numbers are integers here. */
  datatype Cell =
    | Empty
    | Str(s: string)
    | Number(n: int)
    | DateTime(date: CalendarDate, seconds: nat)
    | DateValue(day: CalendarDate)
    | TimeOfDay(seconds: nat)

  type Row = seq<Cell>

  /** A saved workbook: the rows of each sheet, by title. */
  datatype Workbook = Workbook(sheets: map<string, seq<Row>>)

  /** The active worksheet of a new workbook, filled in place. */
  class Worksheet {
    var title: string
    var rows: seq<Row>

    constructor()
      ensures title == "Sheet" && rows == []
    {
      title := "Sheet";
      rows := [];
    }

    /** `ws.append(values)`: the values become the next row. */
    method Append(values: Row)
      modifies this
      ensures rows == old(rows) + [values] && title == old(title)
    {
      rows := rows + [values];
    }
  }

  // ---------------------------------------------------------------------
  // Saving and loading

  /** The longest text a cell holds; openpyxl cuts a longer string when it is bound to its cell. */
  const MaxCellText: nat := 32767

  /**
   * 2^53: openpyxl writes a number as `"%.16g" % value`, which goes
   * through a double. Every integer up to this magnitude is a double
   * with at most 16 digits and comes back unchanged; a larger one may be
   * rounded, or raise OverflowError beyond the double range.
   */
  const MaxExactNumber: int := 9007199254740992

  /**
   * How a cell ends up in the file: a string is cut to MaxCellText
   * characters, an empty string is not written, a date comes back as a
   * date-time at midnight unless its serial number is 0; numbers,
   * date-times and times are kept (for a number, faithfully only up to
   * MaxExactNumber in magnitude; larger ones are not rounded here).
   */
  function SaveCell(c: Cell): (r: Cell)
    ensures r != Str("") && !r.DateValue?
    ensures c.Str? && c.s == "" ==> r == Empty
    ensures c.Str? && c.s != "" ==> r.Str? && r.s <= c.s && |r.s| == if |c.s| <= MaxCellText then |c.s| else MaxCellText
    ensures c.DateValue? && !SerialZero(c.day) ==> r == DateTime(c.day, 0)
    ensures c.DateValue? && SerialZero(c.day) ==> r == TimeOfDay(0)
    ensures (c.Empty? || c.Number? || c.DateTime? || c.TimeOfDay?) ==> r == c
  {
    match c
    case Str(s) => if s == "" then Empty else if |s| <= MaxCellText then c else Str(s[..MaxCellText])
    case DateValue(d) => if SerialZero(d) then TimeOfDay(0) else DateTime(d, 0)
    case _ => c
  }

  /**
   * The two days openpyxl writes as serial number 0: day 1 to 60 after
   * 30 December 1899 are shifted down by one for Excel's phantom
   * 29 February 1900. A serial number below 1 is read back as a time
   * of day.
   */
  predicate SerialZero(d: CalendarDate)
  {
    d == Date(1899, 12, 30) || d == Date(1899, 12, 31)
  }

  function SaveRow(row: Row): Row
  {
    Map(SaveCell, row)
  }

  /** `wb.save(...)` of a workbook whose only sheet is `title`. */
  function Save(title: string, rows: seq<Row>): (wb: Workbook)
    ensures wb.sheets.Keys == {title} && |wb.sheets[title]| == |rows|
    ensures forall i :: 0 <= i < |rows| ==> |wb.sheets[title][i]| == |rows[i]|
    ensures forall i, j :: 0 <= i < |rows| && 0 <= j < |rows[i]| ==> wb.sheets[title][i][j] == SaveCell(rows[i][j])
  {
    Workbook(map[title := Map(SaveRow, rows)])
  }

  /** The sheet's column count: the widest row, and at least one column. */
  function SheetWidth(rows: seq<Row>): (w: nat)
    ensures w >= 1 && forall i :: 0 <= i < |rows| ==> |rows[i]| <= w
    ensures w == 1 || exists i :: 0 <= i < |rows| && |rows[i]| == w
  {
    if rows == [] then 1
    else
      var init := rows[..|rows| - 1];
      var w := SheetWidth(init);
      assert forall i :: 0 <= i < |init| ==> init[i] == rows[i];
      if |rows[|rows| - 1]| > w then |rows[|rows| - 1]| else w
  }

  /** A row as `iter_rows` yields it: padded with empty cells to the sheet's width. */
  function Pad(row: Row, width: nat): (r: Row)
    requires |row| <= width
    ensures |r| == width && r[..|row|] == row
    ensures forall i :: |row| <= i < width ==> r[i] == Empty
  {
    row + seq(width - |row|, _ => Empty)
  }

  /** `ws.iter_rows(min_row=2, values_only=True)`: every row after the first, padded; DataRowsPadded states them. */
  function DataRows(rows: seq<Row>): (r: seq<Row>)
    ensures |r| == if rows == [] then 0 else |rows| - 1
  {
    var w := SheetWidth(rows);
    if rows == [] then []
    else seq(|rows| - 1, i requires 0 <= i < |rows| - 1 => Pad(rows[i + 1], w))
  }

  /** The rows read are the sheet's rows from the second on, each padded to the sheet's width. */
  lemma DataRowsPadded(rows: seq<Row>)
    ensures forall i :: 0 <= i < |DataRows(rows)| ==>
      |DataRows(rows)[i]| == SheetWidth(rows) && DataRows(rows)[i] == Pad(rows[i + 1], SheetWidth(rows))
  {
  }

  /** `wb[title]`: KeyError for a sheet that is not there. */
  function Sheet(wb: Workbook, title: string): (r: Result<seq<Row>>)
    ensures r.Err? <==> title !in wb.sheets
  {
    if title in wb.sheets then Ok(wb.sheets[title]) else Err(KeyError)
  }

  /** The rows the read loops do not skip: those with a first cell. */
  predicate HasId(row: Row)
  {
    |row| > 0 && row[0] != Empty
  }

  // ---------------------------------------------------------------------
  // Writing

  const DepartmentsHeader: Row := [Str("id"), Str("name"), Str("floor")]
  const ProjectsHeader: Row := [Str("id"), Str("name"), Str("budget"), Str("deadline"), Str("status")]

  function DepartmentRow(d: Department): Row
  {
    [Str(d.id), Str(d.name), Number(d.floor)]
  }

  function ProjectRow(p: Project): Row
  {
    [Str(p.id), Str(p.name), Number(p.budget), DateValue(p.deadline), Str(p.status)]
  }

  /** The file `write_departments` saves. */
  function DepartmentsWorkbook(departments: seq<Department>): Workbook
  {
    Save("Departments", [DepartmentsHeader] + Map(DepartmentRow, departments))
  }

  function ProjectsWorkbook(projects: seq<Project>): Workbook
  {
    Save("Projects", [ProjectsHeader] + Map(ProjectRow, projects))
  }

  /** `write_departments`: rename the active sheet, append the header and one row per department, save. */
  method WriteDepartments(departments: seq<Department>) returns (wb: Workbook)
    ensures wb == DepartmentsWorkbook(departments)
  {
    var ws := new Worksheet();
    ws.title := "Departments";
    ws.Append(DepartmentsHeader);
    for i := 0 to |departments|
      invariant ws.title == "Departments"
      invariant ws.rows == [DepartmentsHeader] + Map(DepartmentRow, departments[..i])
    {
      MapSnoc(DepartmentRow, departments, i);
      ws.Append(DepartmentRow(departments[i]));
    }
    assert departments[..|departments|] == departments;
    wb := Save(ws.title, ws.rows);
  }

  /** `write_projects`: the same, with the deadline appended as a date. */
  method WriteProjects(projects: seq<Project>) returns (wb: Workbook)
    ensures wb == ProjectsWorkbook(projects)
  {
    var ws := new Worksheet();
    ws.title := "Projects";
    ws.Append(ProjectsHeader);
    for i := 0 to |projects|
      invariant ws.title == "Projects"
      invariant ws.rows == [ProjectsHeader] + Map(ProjectRow, projects[..i])
    {
      MapSnoc(ProjectRow, projects, i);
      ws.Append(ProjectRow(projects[i]));
    }
    assert projects[..|projects|] == projects;
    wb := Save(ws.title, ws.rows);
  }

  // ---------------------------------------------------------------------
  // Reading

  /** A text argument: in this model only a string cell is text. */
  function TextOfCell(c: Cell): (r: Result<string>)
    ensures r.Ok? <==> c.Str?
    ensures r.Ok? ==> c == Str(r.value)
    ensures r.Err? ==> r.error == TypeError
  {
    if c.Str? then Ok(c.s) else Err(TypeError)
  }

  /** `int(cell)`: a number as it is, a string parsed, anything else a TypeError. */
  function IntOfCell(c: Cell): (r: Result<int>)
    ensures c.Number? ==> r == Ok(c.n)
    ensures c.Str? ==> r == ParseInt(c.s)
    ensures (c.Empty? || c.DateTime? || c.DateValue? || c.TimeOfDay?) ==> r == Err(TypeError)
  {
    match c
    case Number(n) => Ok(n)
    case Str(s) => ParseInt(s)
    case _ => Err(TypeError)
  }

  /**
   * The deadline normalisation of `read_projects`: a value with `date()`
   * (a date-time) gives its date, a string is parsed as ISO, and any
   * other value is kept as it is. Only the parse can raise.
   */
  function NormalisedDeadline(c: Cell): (r: Result<Cell>)
    ensures c.DateTime? ==> r == Ok(DateValue(c.date))
    ensures c.Str? && FromIsoFormat(c.s).Ok? ==> r == Ok(DateValue(FromIsoFormat(c.s).value))
    ensures c.Str? && FromIsoFormat(c.s).Err? ==> r == Err(FromIsoFormat(c.s).error)
    ensures (c.Empty? || c.Number? || c.DateValue? || c.TimeOfDay?) ==> r == Ok(c)
  {
    match c
    case DateTime(d, _) => Ok(DateValue(d))
    case Str(s) =>
      var d :- FromIsoFormat(s);
      Ok(DateValue(d))
    case _ => Ok(c)
  }

  /** A date argument: in this model only a date cell is a date. */
  function DateOfCell(c: Cell): (r: Result<CalendarDate>)
    ensures r.Ok? <==> c.DateValue?
    ensures r.Ok? ==> c == DateValue(r.value)
    ensures r.Err? ==> r.error == TypeError
  {
    if c.DateValue? then Ok(c.day) else Err(TypeError)
  }

  /**
   * The deadline as the record holds it: a date-time gives its date, a
   * string is parsed as ISO, a date is kept; any other value is refused.
   */
  function DeadlineOfCell(c: Cell): (r: Result<CalendarDate>)
    ensures c.DateTime? ==> r == Ok(c.date)
    ensures c.DateValue? ==> r == Ok(c.day)
    ensures c.Str? ==> r == FromIsoFormat(c.s)
    ensures (c.Empty? || c.Number? || c.TimeOfDay?) ==> r == Err(TypeError)
  {
    var n :- NormalisedDeadline(c);
    DateOfCell(n)
  }

  /** `Department(row[0], row[1], int(row[2]))`. */
  function DepartmentOfRow(row: Row): (r: Result<Department>)
    ensures |row| < 3 ==> r == Err(IndexError)
    ensures |row| >= 3 && IntOfCell(row[2]).Err? ==> r == Err(IntOfCell(row[2]).error)
    ensures r.Ok? <==> |row| >= 3 && IntOfCell(row[2]).Ok? && row[0].Str? && row[1].Str?
    ensures r.Ok? ==> row[0] == Str(r.value.id) && row[1] == Str(r.value.name) && IntOfCell(row[2]) == Ok(r.value.floor)
  {
    if |row| < 3 then Err(IndexError)
    else
      var floor :- IntOfCell(row[2]);
      var id :- TextOfCell(row[0]);
      var name :- TextOfCell(row[1]);
      Ok(Department(id, name, floor))
  }

  /**
   * The deadline is read and normalised first (`row[3]`), then
   * `Project(row[0], row[1], int(row[2]), deadline, row[4])` evaluates its
   * arguments left to right: `int(row[2])` raises before `row[4]` is
   * looked up, and a deadline that is not a date is refused only after
   * both, with the other typed arguments.
   */
  function ProjectOfRow(row: Row): (r: Result<Project>)
    ensures |row| < 4 ==> r == Err(IndexError)
    ensures |row| >= 4 && NormalisedDeadline(row[3]).Err? ==> r == Err(NormalisedDeadline(row[3]).error)
    ensures |row| >= 4 && NormalisedDeadline(row[3]).Ok? && IntOfCell(row[2]).Err? ==> r == Err(IntOfCell(row[2]).error)
    ensures |row| == 4 && NormalisedDeadline(row[3]).Ok? && IntOfCell(row[2]).Ok? ==> r == Err(IndexError)
    ensures |row| >= 5 && NormalisedDeadline(row[3]).Ok? && IntOfCell(row[2]).Ok? && r.Err? ==> r.error == TypeError
    ensures r.Ok? <==> |row| >= 5 && DeadlineOfCell(row[3]).Ok? && IntOfCell(row[2]).Ok?
                       && row[0].Str? && row[1].Str? && row[4].Str?
    ensures r.Ok? ==> && row[0] == Str(r.value.id) && row[1] == Str(r.value.name)
                      && IntOfCell(row[2]) == Ok(r.value.budget) && DeadlineOfCell(row[3]) == Ok(r.value.deadline)
                      && row[4] == Str(r.value.status)
  {
    if |row| < 4 then Err(IndexError)
    else
      var deadline :- NormalisedDeadline(row[3]);
      var budget :- IntOfCell(row[2]);
      if |row| < 5 then Err(IndexError)
      else
        var id :- TextOfCell(row[0]);
        var name :- TextOfCell(row[1]);
        var day :- DateOfCell(deadline);
        var status :- TextOfCell(row[4]);
        Ok(Project(id, name, budget, day, status))
  }

  /** What `read_departments` returns or raises. */
  function DepartmentsOfWorkbook(wb: Workbook): (r: Result<seq<Department>>)
    ensures "Departments" !in wb.sheets ==> r == Err(KeyError)
    ensures r.Ok? ==> var rows := Filter(HasId, DataRows(wb.sheets["Departments"]));
      |r.value| == |rows| && forall i :: 0 <= i < |rows| ==> DepartmentOfRow(rows[i]) == Ok(r.value[i])
  {
    var sheet :- Sheet(wb, "Departments");
    var rows := Filter(HasId, DataRows(sheet));
    var r := MapAll(DepartmentOfRow, rows);
    if r.Ok? then MapAllOk(DepartmentOfRow, rows); r else r
  }

  function ProjectsOfWorkbook(wb: Workbook): (r: Result<seq<Project>>)
    ensures "Projects" !in wb.sheets ==> r == Err(KeyError)
    ensures r.Ok? ==> var rows := Filter(HasId, DataRows(wb.sheets["Projects"]));
      |r.value| == |rows| && forall i :: 0 <= i < |rows| ==> ProjectOfRow(rows[i]) == Ok(r.value[i])
  {
    var sheet :- Sheet(wb, "Projects");
    var rows := Filter(HasId, DataRows(sheet));
    var r := MapAll(ProjectOfRow, rows);
    if r.Ok? then MapAllOk(ProjectOfRow, rows); r else r
  }

  /** `read_departments`: rows without an id are skipped and reading goes on. */
  method ReadDepartments(wb: Workbook) returns (r: Result<seq<Department>>)
    ensures r == DepartmentsOfWorkbook(wb)
  {
    var sheet := Sheet(wb, "Departments");
    if sheet.Err? {
      return Err(sheet.error);
    }
    var rows := DataRows(sheet.value);
    var departments: seq<Department> := [];
    for i := 0 to |rows|
      invariant MapAll(DepartmentOfRow, Filter(HasId, rows[..i])) == Ok(departments)
    {
      FilterMapStep(HasId, DepartmentOfRow, rows, i, departments);
      if rows[i][0] == Empty {
        continue;
      }
      var d := DepartmentOfRow(rows[i]);
      if d.Err? {
        return Err(d.error);
      }
      departments := departments + [d.value];
    }
    assert rows[..|rows|] == rows;
    r := Ok(departments);
  }

  /** `read_projects`: the same loop, with the deadline normalised on the way. */
  method ReadProjects(wb: Workbook) returns (r: Result<seq<Project>>)
    ensures r == ProjectsOfWorkbook(wb)
  {
    var sheet := Sheet(wb, "Projects");
    if sheet.Err? {
      return Err(sheet.error);
    }
    var rows := DataRows(sheet.value);
    var projects: seq<Project> := [];
    for i := 0 to |rows|
      invariant MapAll(ProjectOfRow, Filter(HasId, rows[..i])) == Ok(projects)
    {
      FilterMapStep(HasId, ProjectOfRow, rows, i, projects);
      if rows[i][0] == Empty {
        continue;
      }
      var p := ProjectOfRow(rows[i]);
      if p.Err? {
        return Err(p.error);
      }
      projects := projects + [p.value];
    }
    assert rows[..|rows|] == rows;
    r := Ok(projects);
  }

  // ---------------------------------------------------------------------
  // Round trips

  /** A sheet whose rows all have the same width is read without padding. */
  lemma {:induction false} UniformWidth(rows: seq<Row>, w: nat)
    requires w >= 1 && |rows| > 0
    requires forall i :: 0 <= i < |rows| ==> |rows[i]| == w
    ensures SheetWidth(rows) == w
  {
    if |rows| > 1 {
      var init := rows[..|rows| - 1];
      assert forall i :: 0 <= i < |init| ==> init[i] == rows[i];
      UniformWidth(init, w);
    }
  }

  /** The data rows of a saved sheet of equal-width rows are its saved rows after the header. */
  lemma DataRowsOfSaved(header: Row, rows: seq<Row>)
    requires |header| >= 1
    requires forall i :: 0 <= i < |rows| ==> |rows[i]| == |header|
    ensures DataRows(Map(SaveRow, [header] + rows)) == Map(SaveRow, rows)
  {
    var saved := Map(SaveRow, [header] + rows);
    forall i | 0 <= i < |saved| ensures |saved[i]| == |header| {
      if i > 0 { assert saved[i] == SaveRow(rows[i - 1]); }
    }
    UniformWidth(saved, |header|);
    forall i | 0 <= i < |saved| - 1 ensures DataRows(saved)[i] == saved[i + 1] {
      assert Pad(saved[i + 1], |header|) == saved[i + 1];
    }
    assert DataRows(saved) == saved[1..];
  }

  /** A department row as it is stored. */
  function SavedDepartmentRow(d: Department): Row
  {
    SaveRow(DepartmentRow(d))
  }

  function SavedProjectRow(p: Project): Row
  {
    SaveRow(ProjectRow(p))
  }

  /** A record whose id is not empty, so that its row is read back. */
  predicate ListedDepartment(d: Department) { d.id != "" }
  predicate ListedProject(p: Project) { p.id != "" }

  /**
   * What the file keeps: the number within MaxExactNumber, the id within
   * MaxCellText, and the other texts of a listed record within
   * MaxCellText and not empty, which an empty cell would lose.
   */
  predicate StorableDepartment(d: Department)
  {
    && -MaxExactNumber <= d.floor <= MaxExactNumber
    && |d.id| <= MaxCellText
    && (ListedDepartment(d) ==> d.name != "" && |d.name| <= MaxCellText)
  }

  predicate StorableProject(p: Project)
  {
    && -MaxExactNumber <= p.budget <= MaxExactNumber
    && |p.id| <= MaxCellText
    && (ListedProject(p) ==> p.name != "" && p.status != "" && |p.name| <= MaxCellText && |p.status| <= MaxCellText)
    && (ListedProject(p) ==> !SerialZero(p.deadline))
  }

  /** A stored department row is read back exactly when its id is not empty, and then equal. */
  lemma DepartmentRowRoundTrip(d: Department)
    requires StorableDepartment(d)
    ensures HasId(SavedDepartmentRow(d)) == ListedDepartment(d)
    ensures ListedDepartment(d) ==> DepartmentOfRow(SavedDepartmentRow(d)) == Ok(d)
  {
  }

  lemma ProjectRowRoundTrip(p: Project)
    requires StorableProject(p)
    ensures HasId(SavedProjectRow(p)) == ListedProject(p)
    ensures ListedProject(p) ==> ProjectOfRow(SavedProjectRow(p)) == Ok(p)
  {
  }

  /** Reading the saved rows of some records gives back exactly those records whose row has an id. */
  lemma {:induction false} ReadBackKept<T>(dec: Row -> Result<T>, enc: T -> Row, keep: T -> bool, xs: seq<T>)
    requires forall i :: 0 <= i < |xs| ==> HasId(enc(xs[i])) == keep(xs[i])
    requires forall i :: 0 <= i < |xs| && keep(xs[i]) ==> dec(enc(xs[i])) == Ok(xs[i])
    ensures MapAll(dec, Filter(HasId, Map(enc, xs))) == Ok(Filter(keep, xs))
  {
    FilterMap(HasId, keep, enc, xs);
    var kept := Filter(keep, xs);
    forall i | 0 <= i < |kept| ensures dec(enc(kept[i])) == Ok(kept[i]) {
      assert kept[i] in kept;
      var j :| 0 <= j < |xs| && xs[j] == kept[i];
    }
    MapAllRoundTrip(dec, enc, kept);
  }

  /** The rows the department reader iterates over are the stored department rows. */
  lemma DepartmentDataRows(departments: seq<Department>)
    ensures DataRows(DepartmentsWorkbook(departments).sheets["Departments"])
         == Map(SavedDepartmentRow, departments)
  {
    var rows := Map(DepartmentRow, departments);
    DataRowsOfSaved(DepartmentsHeader, rows);
    assert Map(SaveRow, rows) == Map(SavedDepartmentRow, departments);
  }

  lemma ProjectDataRows(projects: seq<Project>)
    ensures DataRows(ProjectsWorkbook(projects).sheets["Projects"]) == Map(SavedProjectRow, projects)
  {
    var rows := Map(ProjectRow, projects);
    DataRowsOfSaved(ProjectsHeader, rows);
    assert Map(SaveRow, rows) == Map(SavedProjectRow, projects);
  }

  /**
   * Departments come back in order, except those with an empty id, which
   * vanish without an error; the others read back equal.
   */
  lemma DepartmentsRoundTrip(departments: seq<Department>)
    requires forall i :: 0 <= i < |departments| ==> StorableDepartment(departments[i])
    ensures DepartmentsOfWorkbook(DepartmentsWorkbook(departments)) == Ok(Filter(ListedDepartment, departments))
  {
    DepartmentDataRows(departments);
    forall i | 0 <= i < |departments|
      ensures HasId(SavedDepartmentRow(departments[i])) == ListedDepartment(departments[i])
      ensures ListedDepartment(departments[i]) ==>
        DepartmentOfRow(SavedDepartmentRow(departments[i])) == Ok(departments[i])
    {
      DepartmentRowRoundTrip(departments[i]);
    }
    ReadBackKept(DepartmentOfRow, SavedDepartmentRow, ListedDepartment, departments);
  }

  /** Projects come back in order with their deadlines as dates, except those with an empty id. */
  lemma ProjectsRoundTrip(projects: seq<Project>)
    requires forall i :: 0 <= i < |projects| ==> StorableProject(projects[i])
    ensures ProjectsOfWorkbook(ProjectsWorkbook(projects)) == Ok(Filter(ListedProject, projects))
  {
    ProjectDataRows(projects);
    forall i | 0 <= i < |projects|
      ensures HasId(SavedProjectRow(projects[i])) == ListedProject(projects[i])
      ensures ListedProject(projects[i]) ==> ProjectOfRow(SavedProjectRow(projects[i])) == Ok(projects[i])
    {
      ProjectRowRoundTrip(projects[i]);
    }
    ReadBackKept(ProjectOfRow, SavedProjectRow, ListedProject, projects);
  }

  /** A name longer than a cell holds comes back cut to MaxCellText characters. */
  lemma LongNameTruncated(d: Department)
    requires ListedDepartment(d) && |d.id| <= MaxCellText && |d.name| > MaxCellText
    ensures DepartmentOfRow(SavedDepartmentRow(d)) == Ok(d.(name := d.name[..MaxCellText]))
    ensures DepartmentOfRow(SavedDepartmentRow(d)) != Ok(d)
  {
  }

  /**
   * A deadline of 30 or 31 December 1899 is saved as serial number 0 and
   * read back as midnight, a time of day that has no `date()`: the
   * project does not come back with a date.
   */
  lemma EarliestDeadlinesLost(p: Project)
    requires ListedProject(p) && SerialZero(p.deadline)
    ensures SavedProjectRow(p)[3] == TimeOfDay(0)
    ensures ProjectOfRow(SavedProjectRow(p)) == Err(TypeError)
  {
  }

  /**
   * A row four cells wide fails on the budget before `row[4]` is reached:
   * a budget that is not an integer raises ValueError, an empty budget
   * cell TypeError, and only a valid budget lets IndexError through.
   * An empty deadline is kept by the normalisation, so it changes none
   * of this, and with a fifth cell it is the budget's error that is raised.
   */
  lemma FourColumnRow(id: string, name: string, d: CalendarDate)
    ensures ProjectOfRow([Str(id), Str(name), Str("abc"), DateTime(d, 0)]) == Err(ValueError)
    ensures ProjectOfRow([Str(id), Str(name), Empty, DateTime(d, 0)]) == Err(TypeError)
    ensures ProjectOfRow([Str(id), Str(name), Number(1), DateTime(d, 0)]) == Err(IndexError)
    ensures ProjectOfRow([Str(id), Str(name), Str("abc"), Empty]) == Err(ValueError)
    ensures ProjectOfRow([Str(id), Str(name), Number(1), Empty]) == Err(IndexError)
    ensures ProjectOfRow([Str(id), Str(name), Str("abc"), Empty, Str("Active")]) == Err(ValueError)
  {
    var abc := "abc";
    StripUnpadded(abc);
    assert !ValidDigitGroups(abc);
  }

  /** Every spreadsheet shape of a deadline that names a date yields that date. */
  lemma DeadlineShapes(d: CalendarDate, seconds: nat)
    ensures DeadlineOfCell(DateTime(d, seconds)) == Ok(d)
    ensures DeadlineOfCell(DateValue(d)) == Ok(d)
    ensures DeadlineOfCell(Str(IsoFormat(d))) == Ok(d)
  {
    IsoRoundTrip(d);
  }

  /** Reading a file that lacks the expected sheet raises KeyError. */
  lemma MissingSheet(wb: Workbook)
    requires "Departments" !in wb.sheets && "Projects" !in wb.sheets
    ensures DepartmentsOfWorkbook(wb) == Err(KeyError)
    ensures ProjectsOfWorkbook(wb) == Err(KeyError)
  {
  }

  /** A departments file is not a projects file: reading it as one raises KeyError. */
  lemma WrongSheet(departments: seq<Department>)
    ensures ProjectsOfWorkbook(DepartmentsWorkbook(departments)) == Err(KeyError)
  {
  }
}
