# university-data-handling in Dafny

This project models the core of *university-data-handling*. That program
generates a synthetic organisation and saves and loads it through four
storage backends:

- the data set holds people, departments and projects, plus two relations:
  the department assignment of each person, and the person–project pairs;
- the backends are delimited text, JSON documents, spreadsheets and an
  Oracle database.

The modules follow the program's files:

| module | models |
|---|---|
| `Model` | the three dataclasses and the two assignment tuples of `model.py`: field-wise equality, hashing and ordering by id, `__str__` |
| `Generator` | `generator.py`: sequential zero-padded ids, the bounds of every random draw, and the shape of the two assignment relations |
| `Choice` | what `random` and Faker guarantee for each draw, stated as nondeterministic choices |
| `CsvHandler` | `csv_handler.py`: files as rows of cell strings, `DictReader`/`reader` decoding, and the line format for rows that need no quoting |
| `JsonHandler` | `json_handler.py`: documents as JSON values, `Department(**d)` / `Project(**d)` with their key checks |
| `XlsxHandler` | `xlsx_handler.py`: a worksheet class filled by `append`, what saving does to cells, and the read loops that skip rows without an id |
| `Oracle` | the database server as the handler relies on it: typed columns, primary and foreign keys, NULL for the empty string, DROP/CREATE/INSERT/SELECT |
| `SqlHandler` | `sql_handler.py`: `create_tables`, `insert_data` as one transaction, and `read_data` |
| `Text`, `Dates`, `Common` | Python's `str`, `int`, `zfill`, `title` and string order; `date.isoformat` and `date.fromisoformat`; `Result`, list comprehensions that stop at the first exception |

Exceptions are `Err` values of a `Result`, named after the Python
exception (`ValueError`, `KeyError`, `TypeError`, `IndexError`,
`StopIteration`, `DatabaseError`). A comprehension that raises on its
k-th element is `MapAll`, which returns that first error.

Randomness is a nondeterministic choice within the bounds the library
promises.

Files are modelled by their contents, not their bytes:

| backend | modelled as |
|---|---|
| CSV | the rows of cells |
| JSON | the JSON value and the indent |
| XLSX | the typed cells of each sheet |
| SQL | the committed tables |

The main results:

- every backend gives back what it wrote, and the model states exactly
  when it does:
  - CSV gives back everything, as rows of cells;
  - JSON gives back departments and projects;
  - XLSX gives back the records with a non-empty id;
  - SQL reads back the loaded data up to row order;
- `insert_data` succeeds exactly when the data set satisfies the schema's
  constraints;
- `create_tables` installs the five empty tables and leaves every other
  table alone, when it starts from a state in which no other table
  references the five and those of the five that exist have the
  definitions `create_tables` gives them. An old A_PERSON_DEPARTMENT
  with a foreign key into A_PERSON_PROJECT, for example, blocks the
  first drop, and the set-up then fails;
- the generated relations have the shape the schema needs: unique ids, one
  department per person, and between min(1, |projects|) and
  min(3, |projects|) distinct projects per person.

## Model

Source paths are relative to the repository root.

| member | source | states |
|---|---|---|
| Model.MaleByDefault | src/data/solution/model.py:10 | leaving `male` out gives a male person |
| Model.PersonLessStrictOrder | src/data/solution/model.py:18-19 | `__lt__` on people is irreflexive, asymmetric and transitive |
| Model.PersonLessTotalOnIds | src/data/solution/model.py:18-19 | of two people with different ids, one is less than the other |
| Model.SameIdIncomparable | src/data/solution/model.py:15-19 | two different people with the same id are unequal, yet neither is less: the order looks at the id only |
| Model.HashDependsOnIdOnly | src/data/solution/model.py:15-16 | records with equal ids hash alike, for all three entity types, whatever the string hash is |
| Model.BoolToString | src/data/solution/model.py:13 | `str(b)` is "True" exactly when b holds |
| Model.PersonToString | src/data/solution/model.py:12-13 | the text is `#`, the id, `: `, the name, ` (`, the age in decimal, `, `, `True` or `False` and `)`, each at its position |
| Model.DepartmentToString | src/data/solution/model.py:27-28 | the text is the name, ` (ID: `, the id, `, Floor: `, the floor in decimal and `)`, each at its position |
| Model.ProjectToString | src/data/solution/model.py:41-42 | the text is the name, ` (ID: `, the id, `, Budget: `, the budget in decimal, `, Deadline: `, the ISO date, `, Status: `, the status and `)`, each at its position |
| Model.PersonToStringGender | src/data/solution/model.py:12-13 | the text ends with `True)` exactly for a male person |
| Model.PersonToStringAge | src/data/solution/model.py:12-13 | the age's decimal text stands right after ` (` and ends just before `, ` and the gender |
| Model.SameAgeAndGender | src/data/solution/model.py:12-13 | one text can end with only one age and gender in that layout |
| Model.PersonToStringDeterminesAgeAndGender | src/data/solution/model.py:12-13 | two persons printed alike have the same age and the same `male`: both can be read back from the text |
| Model.DepartmentToStringTail | src/data/solution/model.py:27-28 | the floor's decimal text stands right after a space and just before the closing `)` |
| Model.SameFloor | src/data/solution/model.py:27-28 | one text can end with only one floor in that layout |
| Model.DepartmentToStringDeterminesFloor | src/data/solution/model.py:27-28 | two departments printed alike have the same floor |
| Model.ProjectToStringHidesBudget | src/data/solution/model.py:41-42 | for any two budgets it gives two projects with those budgets printed alike: the status is free text and can repeat the layout, so unlike the floor and the age the budget cannot be read back from the text |
| Text.StrLessTransitive | src/data/solution/model.py:19 | Python's string `<` is transitive |
| Text.StrLessTotal | src/data/solution/model.py:19 | of two different strings, one is less |
| Text.StrLessAsymmetric | src/data/solution/model.py:19 | string `<` never holds both ways |
| Text.StrLessIrreflexive | src/data/solution/model.py:19 | no string is less than itself |
| Text.ZFillNatInjective | src/data/solution/generator.py:16 | different numbers zero-filled to the same width give different texts |
| Text.NatToString | src/data/solution/generator.py:16 | the text of a natural number is a non-empty run of digits without a leading zero |
| Text.ZFill | src/data/solution/generator.py:16 | `zfill(width)` pads to the width and never shortens |
| Text.ZFillNat | src/data/solution/generator.py:16 | a zero-filled number is all digits, denotes the same number, and is no shorter than the number's own text |
| Text.FieldWidth | src/data/solution/generator.py:16 | a number below 10^width zero-filled to that width is exactly width digits denoting the number |
| Text.FixedWidthDigits | src/data/solution/generator.py:16 | a run of digits is the zero-filled text of its own value |
| Text.ParseIntToString | src/data/solution/handler/csv_handler.py:11 | `int(str(i)) == i` for every integer, negative ones included |
| Text.IntToString | src/data/solution/handler/csv_handler.py:18 | `str(i)` is non-empty and starts with a minus sign exactly when i is negative |
| Text.Strip | src/data/solution/handler/csv_handler.py:11 | the result is a slice of the input with only white space around it (the characters `str.isspace` accepts), and it neither starts nor ends with white space |
| Text.StripIdempotent | src/data/solution/handler/csv_handler.py:11 | stripping twice is stripping once |
| Text.ParseUnsigned | src/data/solution/handler/csv_handler.py:11 | a digit string parses to the value of its digits |
| Text.ParseNegated | src/data/solution/handler/csv_handler.py:11 | a minus sign before digits parses to the negated value |
| Text.ParseInt | src/data/solution/handler/csv_handler.py:11 | `int(s)` succeeds only on text containing a digit |
| Text.DigitsValueOfNatToString | src/data/solution/handler/csv_handler.py:18 | the digits `str(n)` writes denote n |
| Text.Title | src/data/solution/generator.py:38 | `title()` keeps the length and maps each character by its word position |
| Text.TitleIdempotent | src/data/solution/generator.py:38 | title-casing a title-cased phrase changes nothing |
| Dates.IsoFormat | src/data/solution/handler/csv_handler.py:38 | `isoformat()` is ten characters, `YYYY-MM-DD`, whose three digit fields denote the year, month and day |
| Dates.IsoRoundTrip | src/data/solution/handler/csv_handler.py:38-44 | `date.fromisoformat(d.isoformat()) == d` for every date |
| Dates.FromIsoFormat | src/data/solution/handler/csv_handler.py:44 | `fromisoformat` fails only with ValueError, and text it accepts is exactly the ISO form of the date it yields; with IsoRoundTrip, it accepts exactly the ISO texts of dates |
| Dates.LeapDay | src/data/solution/handler/csv_handler.py:44 | February 29th is a valid date exactly in Gregorian leap years |
| Dates.DaysInMonth | src/data/solution/handler/csv_handler.py:44 | every month has 28 to 31 days; February has 29 exactly in leap years |
| Choice.Pick | src/data/solution/generator.py:17 | a Faker draw comes from its non-empty word pool |
| Choice.Random01 | src/data/solution/generator.py:13 | `random.random()` lies in [0, 1) |
| Choice.RandInt | src/data/solution/generator.py:18 | `randint(lo, hi)` lies in [lo, hi], and raises ValueError exactly when lo > hi |
| Choice.RandRange | src/data/solution/generator.py:18-39 | a draw from a non-empty integer range lies within it |
| Choice.ChoiceIndex | src/data/solution/generator.py:50 | `random.choice` picks a valid position, and raises IndexError exactly on an empty list |
| Choice.Sample | src/data/solution/generator.py:62 | `random.sample` gives k distinct positions below n |
| Generator.IdsInjective | src/data/solution/generator.py:16-37 | different positions give different person, department and project ids; a person id is `O-` and at least six digits |
| Generator.GeneratePeople | src/data/solution/generator.py:8-20 | max(n, 0) people. Person i has id `O-` + i zero-filled to six digits, an age in the range and a name from the pool of its gender; ratio ≥ 1 gives only men and ratio ≤ 0 only women. ValueError exactly when people are drawn from an empty age range |
| Generator.GenerateDepartments | src/data/solution/generator.py:22-30 | max(n, 0) departments with ids `D-001`…, a job name followed by " Department", and floors 1 to 10 |
| Generator.GenerateProjects | src/data/solution/generator.py:32-43 | max(n, 0) projects with ids `P-001`…, a title-cased phrase as name, a budget from 10000 to 1000000, and a status among Active, Completed, Pending |
| Generator.AssignDepartments | src/data/solution/generator.py:45-54 | one assignment per person, in order, to a listed department with a job and a salary from 30000 to 150000; IndexError exactly when there are people but no departments |
| Generator.AssignProjects | src/data/solution/generator.py:56-65 | the assignments are the rows of the people in order; each row pairs the person with a sample of 1 to 3 distinct projects, capped by the number of projects; every pair names a listed person and project |
| Generator.ExpandRefersToInputs | src/data/solution/generator.py:63-64 | every project assignment names a listed person and a listed project |
| Generator.GeneratedIdsDistinct | src/data/solution/generator.py:16-37 | generated people, departments and projects have pairwise distinct ids |
| Generator.ExpandAssignmentsOf | src/data/solution/generator.py:59-64 | with distinct person ids, the assignments naming person i are exactly that person's row |
| Generator.ExpandOtherPeople | src/data/solution/generator.py:59-64 | a person who is not listed has no assignment |
| Generator.ProjectAssignmentsWellFormed | src/data/solution/generator.py:59-64 | with distinct ids, no (person, project) pair repeats, and each person has between min(1, \|projects\|) and min(3, \|projects\|) distinct assignments |
| Generator.RowDistinct | src/data/solution/generator.py:62-64 | one person's row has no repeated pair |
| Generator.PersonRow | src/data/solution/generator.py:63-64 | a person's row pairs that person with each sampled project, in sample order |
| CsvHandler.WritePeople | src/data/solution/handler/csv_handler.py:13-18 | the loop writes the header, then each person's cells in order |
| CsvHandler.WriteDepartments | src/data/solution/handler/csv_handler.py:25-30 | the loop writes the header, then each department's cells in order |
| CsvHandler.WriteProjects | src/data/solution/handler/csv_handler.py:32-39 | the loop writes the header, then each project's cells with the ISO deadline |
| CsvHandler.LastIndexOf | src/data/solution/handler/csv_handler.py:10 | a field name maps to a header position holding it; there is none exactly when the header lacks it |
| CsvHandler.LastIndexAt | src/data/solution/handler/csv_handler.py:10 | a key repeated in the header is read from its last position |
| CsvHandler.DataRowsOfWritten | src/data/solution/handler/csv_handler.py:10 | reading back a written file skips its header and gives the written rows |
| CsvHandler.Field | src/data/solution/handler/csv_handler.py:11 | `row[key]` raises KeyError exactly when the header lacks the key |
| CsvHandler.FieldAt | src/data/solution/handler/csv_handler.py:11 | a field at its last header position reads that cell of a long enough row |
| CsvHandler.PersonDecodes | src/data/solution/handler/csv_handler.py:11 | a written person row decodes to the same person |
| CsvHandler.DepartmentDecodes | src/data/solution/handler/csv_handler.py:23 | a written department row decodes to the same department |
| CsvHandler.ProjectDecodes | src/data/solution/handler/csv_handler.py:44 | a written project row decodes to the same project, deadline included |
| CsvHandler.PeopleRoundTrip | src/data/solution/handler/csv_handler.py:8-18 | `read_people(write_people(ps)) == ps`, in order |
| CsvHandler.DepartmentsRoundTrip | src/data/solution/handler/csv_handler.py:20-30 | departments read back equal and in order |
| CsvHandler.ProjectsRoundTrip | src/data/solution/handler/csv_handler.py:32-44 | projects read back equal and in order |
| CsvHandler.DeptAssignmentsRoundTrip | src/data/solution/handler/csv_handler.py:46-56 | department assignments read back equal and in order |
| CsvHandler.ProjAssignmentsRoundTrip | src/data/solution/handler/csv_handler.py:58-68 | project assignments read back equal and in order |
| CsvHandler.MaleCellLenient | src/data/solution/handler/csv_handler.py:11 | any `male` cell other than "True" reads as female; no error is raised |
| CsvHandler.BadDeadlineRow | src/data/solution/handler/csv_handler.py:44 | a row whose deadline is not ISO text raises ValueError |
| CsvHandler.DeadlineRefused | src/data/solution/handler/csv_handler.py:41-44 | a record whose id, name and budget convert but whose deadline is not ISO text raises the ValueError of `fromisoformat` |
| CsvHandler.BadDeadlineFailsRead | src/data/solution/handler/csv_handler.py:41-44 | one bad deadline anywhere makes the whole read raise ValueError |
| CsvHandler.SplitFields | src/data/solution/handler/csv_handler.py:10 | splitting a line on the delimiter gives at least one field, no field holds the delimiter, and joining the fields with the delimiter gives the line back |
| CsvHandler.JoinSplit | src/data/solution/handler/csv_handler.py:15 | cells without the delimiter, joined by it, split back into the same cells |
| CsvHandler.LineRoundTrip | src/data/solution/handler/csv_handler.py:15-18 | a row of plain cells is written as one line without quotes or line breaks, and parses back to the same cells |
| CsvHandler.PersonLineRoundTrip | src/data/solution/handler/csv_handler.py:15-18 | with a letter-free delimiter, a person whose id and name are plain cells is one unquoted line that parses back to its cells |
| CsvHandler.ValueCellsPlain | src/data/solution/handler/csv_handler.py:18 | the text of a number, a boolean or a date never needs quoting under a safe delimiter |
| CsvHandler.IntTextDigits | src/data/solution/handler/csv_handler.py:18 | the text of an integer holds only digits and minus signs |
| CsvHandler.IsoTextDigits | src/data/solution/handler/csv_handler.py:38 | an ISO date holds only digits and hyphens |
| CsvHandler.BoolTextPlain | src/data/solution/handler/csv_handler.py:18 | "True" and "False" need no quoting under a safe delimiter |
| CsvHandler.DataRows | src/data/solution/handler/csv_handler.py:10-11 | a row is one of DictReader's records exactly when it comes after the header and is not blank, and there are no more records than rows after the header |
| CsvHandler.DataRowsSnoc | src/data/solution/handler/csv_handler.py:10-11 | the records are in file order, one per non-blank row: a header alone gives none, and a row added at the end adds itself at the end, or nothing if it is blank |
| CsvHandler.PersonOfRecord | src/data/solution/handler/csv_handler.py:11 | a header without `id`, `name` or `age` raises KeyError; a converted person holds the record's id and name, the age `int()` gives, and `male` exactly when the cell is `True` |
| CsvHandler.DepartmentOfRecord | src/data/solution/handler/csv_handler.py:23 | a header without `id`, `name` or `floor` raises KeyError; a converted department holds the record's id and name and the floor `int()` gives |
| CsvHandler.ProjectOfRecord | src/data/solution/handler/csv_handler.py:44 | a header without `id`, `name` or `budget` raises KeyError; a converted project holds the record's id, name and status, the budget `int()` gives and the deadline `fromisoformat` gives |
| CsvHandler.ReadPeople | src/data/solution/handler/csv_handler.py:8-11 | an empty file gives no people; otherwise the read succeeds exactly when every record converts, and gives one person per record, in order |
| CsvHandler.ReadDepartments | src/data/solution/handler/csv_handler.py:20-23 | the same for departments |
| CsvHandler.ReadProjects | src/data/solution/handler/csv_handler.py:41-44 | the same for projects |
| CsvHandler.WriteDeptAssignments | src/data/solution/handler/csv_handler.py:46-50 | the header row, then one row per assignment, which reads back as that assignment |
| CsvHandler.ReadDeptAssignments | src/data/solution/handler/csv_handler.py:52-56 | an empty file raises StopIteration; otherwise the read succeeds exactly when every row after the header converts, and gives one assignment per row, in order |
| CsvHandler.WriteProjAssignments | src/data/solution/handler/csv_handler.py:58-62 | the header row, then the two ids of each pair, in order |
| CsvHandler.ReadProjAssignments | src/data/solution/handler/csv_handler.py:64-68 | an empty file raises StopIteration; otherwise the read succeeds exactly when every row after the header has two cells, and gives the pairs of their first two cells, in order |
| JsonHandler.Indent | src/data/solution/handler/json_handler.py:13 | the indent is 2 exactly when pretty, and absent otherwise |
| JsonHandler.WriteProjects | src/data/solution/handler/json_handler.py:21-28 | the loop builds the list of project objects in order, each with its ISO deadline |
| JsonHandler.Elements | src/data/solution/handler/json_handler.py:19 | iterating an array gives its items, a string its one-character strings and an empty object nothing; a non-empty object, a number, a boolean or null raise TypeError |
| JsonHandler.WriteDepartments | src/data/solution/handler/json_handler.py:8-14 | the document is an array with one object per department, each converting back to its department, indented exactly when pretty |
| JsonHandler.DepartmentOfObject | src/data/solution/handler/json_handler.py:19 | `Department(**d)` fails only with TypeError, and an accepted object is exactly the dict of the department it yields |
| JsonHandler.ReadDepartments | src/data/solution/handler/json_handler.py:16-19 | the iteration's error is passed on; otherwise the read succeeds exactly when every element converts, fails only with TypeError, and gives one department per element whose dict is that element |
| JsonHandler.DateOfJson | src/data/solution/handler/json_handler.py:35 | a non-string raises TypeError, a string that is not an ISO date ValueError, and an accepted value is the ISO text of the date it yields |
| JsonHandler.ProjectOfObject | src/data/solution/handler/json_handler.py:34-36 | a non-object raises TypeError; KeyError exactly when the deadline is missing; a bad deadline raises before the keys are checked; an accepted object is exactly the dict of the project it yields, with the ISO deadline |
| JsonHandler.ProjectsOfDocument | src/data/solution/handler/json_handler.py:30-37 | the same for projects |
| JsonHandler.ReadProjects | src/data/solution/handler/json_handler.py:30-37 | the loop gives the converted elements in order, or the first exception |
| JsonHandler.DepartmentObjectRoundTrip | src/data/solution/handler/json_handler.py:11-19 | `Department(**dept.__dict__) == dept` |
| JsonHandler.ProjectObjectRoundTrip | src/data/solution/handler/json_handler.py:25-36 | a project object with its ISO deadline converts back to the same project |
| JsonHandler.DepartmentsRoundTrip | src/data/solution/handler/json_handler.py:8-19 | departments written, pretty or not, read back equal and in order |
| JsonHandler.ProjectsRoundTrip | src/data/solution/handler/json_handler.py:21-37 | projects written, pretty or not, read back equal and in order |
| JsonHandler.ProjectDeadlineIsIsoText | src/data/solution/handler/json_handler.py:26 | the stored deadline is its ten-character ISO string |
| JsonHandler.MissingDeadline | src/data/solution/handler/json_handler.py:35 | an element without `deadline` raises KeyError |
| JsonHandler.ExtraDepartmentKey | src/data/solution/handler/json_handler.py:19 | a department object with an extra field raises TypeError |
| JsonHandler.ExtraProjectKey | src/data/solution/handler/json_handler.py:36 | a project object with an extra field raises TypeError, after its deadline parses |
| JsonHandler.NonListDocument | src/data/solution/handler/json_handler.py:19 | a top-level null, boolean, number or non-empty object makes both reads raise TypeError |
| JsonHandler.EmptyContainerDocument | src/data/solution/handler/json_handler.py:34 | an empty object or empty string at the top level reads as no records |
| XlsxHandler.Worksheet.constructor | src/data/solution/handler/xlsx_handler.py:10-11 | a new workbook's active sheet is "Sheet" and empty |
| XlsxHandler.Worksheet.Append | src/data/solution/handler/xlsx_handler.py:14-16 | `append` adds one row at the end and keeps the title |
| XlsxHandler.SaveCell | src/data/solution/handler/xlsx_handler.py:18 | a string comes back cut to its first 32767 characters, an empty one as an empty cell, a date as midnight of that day or, for 30 and 31 December 1899, as the time 00:00; numbers are kept, which is faithful up to 2^53 in magnitude |
| XlsxHandler.Save | src/data/solution/handler/xlsx_handler.py:18 | the saved workbook has the one sheet, with the rows and row lengths appended, each cell in its saved form |
| XlsxHandler.Sheet | src/data/solution/handler/xlsx_handler.py:22 | `wb[title]` raises KeyError exactly when the sheet is missing |
| XlsxHandler.SheetWidth | src/data/solution/handler/xlsx_handler.py:25 | the width read back is the length of the longest row, and 1 when every row is empty |
| XlsxHandler.Pad | src/data/solution/handler/xlsx_handler.py:25 | a row read back keeps its cells and is filled with empty cells to the sheet's width |
| XlsxHandler.DataRows | src/data/solution/handler/xlsx_handler.py:25 | iterating from row 2 gives one row fewer than the sheet has, and none for an empty sheet |
| XlsxHandler.DataRowsPadded | src/data/solution/handler/xlsx_handler.py:25 | the i-th row read is the sheet's row i + 1 padded with empty cells to the sheet's width |
| XlsxHandler.WriteDepartments | src/data/solution/handler/xlsx_handler.py:9-18 | the sheet titled "Departments" holds the header and one row per department, in order |
| XlsxHandler.WriteProjects | src/data/solution/handler/xlsx_handler.py:31-40 | the sheet titled "Projects" holds the header and one row per project, in order |
| XlsxHandler.NormalisedDeadline | src/data/solution/handler/xlsx_handler.py:50-54 | a date-time gives its date, a string is parsed as ISO and raises only its ValueError, and every other cell is kept as it is |
| XlsxHandler.DateOfCell | src/data/solution/handler/xlsx_handler.py:56 | only a date cell is accepted as the deadline, anything else is a TypeError |
| XlsxHandler.DeadlineOfCell | src/data/solution/handler/xlsx_handler.py:50-56 | the deadline a record gets: a date-time gives its date, a string is parsed as ISO, a date is kept, and a number, an empty cell or a time of day is refused |
| XlsxHandler.TextOfCell | src/data/solution/handler/xlsx_handler.py:27 | a text field takes exactly a string cell, as it is |
| XlsxHandler.IntOfCell | src/data/solution/handler/xlsx_handler.py:27 | `int()` gives a number as it is and parses a string; any other cell raises TypeError |
| XlsxHandler.DepartmentOfRow | src/data/solution/handler/xlsx_handler.py:27 | IndexError below three cells, then the floor's error; accepted exactly when the floor converts and id and name are strings, and the department holds those cells |
| XlsxHandler.ProjectOfRow | src/data/solution/handler/xlsx_handler.py:50-56 | IndexError below four cells, then the ISO parse's ValueError, then the budget's error, then IndexError below five cells, and only then TypeError for a deadline that is not a date or a text cell that is not a string; accepted exactly when all convert, and the project holds those cells |
| XlsxHandler.DepartmentsOfWorkbook | src/data/solution/handler/xlsx_handler.py:20-29 | a missing sheet raises KeyError; a successful read gives one department per row with an id, converted from that row, in order |
| XlsxHandler.ProjectsOfWorkbook | src/data/solution/handler/xlsx_handler.py:42-58 | the same for projects, each row converted with the error order of `ProjectOfRow` |
| XlsxHandler.ReadDepartments | src/data/solution/handler/xlsx_handler.py:20-29 | the loop skips rows without an id and converts the others in order, or gives the first exception |
| XlsxHandler.ReadProjects | src/data/solution/handler/xlsx_handler.py:42-58 | the same for projects, the deadline normalised first |
| XlsxHandler.UniformWidth | src/data/solution/handler/xlsx_handler.py:25 | rows of equal length give the sheet that width |
| XlsxHandler.DataRowsOfSaved | src/data/solution/handler/xlsx_handler.py:25 | rows as wide as the header read back unpadded and without the header |
| XlsxHandler.DepartmentRowRoundTrip | src/data/solution/handler/xlsx_handler.py:16-27 | a saved department row is read exactly when its id is not empty, and then gives back the department; storable bounds the floor by 2^53 in magnitude, the id and name by 32767 characters, and excludes an empty name |
| XlsxHandler.ProjectRowRoundTrip | src/data/solution/handler/xlsx_handler.py:38-56 | a saved project row is read exactly when its id is not empty, and then, for a storable project, gives back the project with its deadline; storable bounds the budget by 2^53 in magnitude and excludes text cells over 32767 characters, empty names and statuses, and the two deadlines saved as serial number 0 |
| XlsxHandler.ReadBackKept | src/data/solution/handler/xlsx_handler.py:25-27 | skipping id-less rows and decoding the rest gives the records whose rows have an id |
| XlsxHandler.DepartmentDataRows | src/data/solution/handler/xlsx_handler.py:14-25 | the data rows read from a written sheet are the saved department rows |
| XlsxHandler.ProjectDataRows | src/data/solution/handler/xlsx_handler.py:36-47 | the data rows read from a written sheet are the saved project rows |
| XlsxHandler.DepartmentsRoundTrip | src/data/solution/handler/xlsx_handler.py:9-29 | storable departments read back are the written ones with a non-empty id, in order |
| XlsxHandler.ProjectsRoundTrip | src/data/solution/handler/xlsx_handler.py:31-58 | storable projects read back are the written ones with a non-empty id, in order |
| XlsxHandler.DeadlineShapes | src/data/solution/handler/xlsx_handler.py:50-54 | a deadline arriving as date-time, date or ISO string gives the same date |
| XlsxHandler.MissingSheet | src/data/solution/handler/xlsx_handler.py:22 | a workbook without the sheet raises KeyError |
| XlsxHandler.WrongSheet | src/data/solution/handler/xlsx_handler.py:44 | reading projects from a departments file raises KeyError |
| XlsxHandler.LongNameTruncated | src/data/solution/handler/xlsx_handler.py:16 | a department name longer than 32767 characters comes back cut, so the department is not read back equal |
| XlsxHandler.FourColumnRow | src/data/solution/handler/xlsx_handler.py:56 | on a four-cell row a budget that is not an integer raises ValueError, an empty one TypeError, and only a valid one lets IndexError through, with a date-time or an empty deadline alike; with a fifth cell and an empty deadline the budget's ValueError is raised |
| XlsxHandler.EarliestDeadlinesLost | src/data/solution/handler/xlsx_handler.py:38-56 | a deadline of 30 or 31 December 1899 is saved as serial number 0 and comes back as a time of day, and the project is not read back |
| Oracle.DropTable | src/data/solution/handler/sql_handler.py:30 | DROP TABLE fails exactly when the table is missing or another table references it; otherwise exactly that table is gone |
| Oracle.CreateTable | src/data/solution/handler/sql_handler.py:36-43 | CREATE TABLE fails exactly when the name is taken or a referenced table is missing or lacks a one-column key; otherwise the table is added, empty |
| Oracle.DropPreservesWellFormed | src/data/solution/handler/sql_handler.py:30 | a drop leaves every foreign key pointing at an existing table |
| Oracle.CreatePreservesWellFormed | src/data/solution/handler/sql_handler.py:36-87 | a create keeps the database well formed |
| Oracle.StoreValue | src/data/solution/handler/sql_handler.py:38-41 | a stored string is NULL exactly when it is empty |
| Oracle.StoreRow | src/data/solution/handler/sql_handler.py:98 | a parameter list is stored exactly when it has one value per column and each value fits its column |
| Oracle.Insert | src/data/solution/handler/sql_handler.py:98 | an accepted INSERT has a present and unused key and satisfied foreign keys, and appends exactly its row |
| Oracle.InsertPreservesConsistent | src/data/solution/handler/sql_handler.py:98 | an accepted INSERT keeps every key present and unique and every foreign key satisfied |
| Oracle.InsertPreservesWellFormed | src/data/solution/handler/sql_handler.py:98 | an accepted INSERT keeps the schema well formed |
| Oracle.InsertKeepsTable | src/data/solution/handler/sql_handler.py:98 | an accepted INSERT keeps every consistent table consistent |
| Oracle.StoreRowOk | src/data/solution/handler/sql_handler.py:98 | binds whose every value stores as a column's value are stored as that row |
| Oracle.InsertMany | src/data/solution/handler/sql_handler.py:98 | executemany keeps the schema and the database well formed |
| Oracle.InsertManyAppends | src/data/solution/handler/sql_handler.py:98 | rows that fit, carry unique keys and find what they reference are all appended in order, and nothing else changes |
| Oracle.InsertManyRows | src/data/solution/handler/sql_handler.py:98 | a successful executemany appended one stored row per parameter list, in order, and left the other tables alone |
| Oracle.InsertManyConsistent | src/data/solution/handler/sql_handler.py:98 | a successful executemany keeps every constraint |
| Oracle.ForeignKeysStay | src/data/solution/handler/sql_handler.py:73-74 | a row's foreign keys stay satisfied as rows are added |
| Oracle.ColumnIndex | src/data/solution/handler/sql_handler.py:120 | a selected column is found at a position with that name, or no column has it |
| Oracle.ColumnIndices | src/data/solution/handler/sql_handler.py:120 | the columns of a SELECT list are found in list order |
| Oracle.Select | src/data/solution/handler/sql_handler.py:120 | SELECT fails exactly on an unknown table or column, and otherwise returns one row per stored row |
| Oracle.SelectAllColumns | src/data/solution/handler/sql_handler.py:120 | selecting every column in definition order returns the stored rows unchanged |
| SqlHandler.DefOf | src/data/solution/handler/sql_handler.py:36-87 | each of the five definitions has its key and foreign keys on existing columns |
| SqlHandler.CreateTables | src/data/solution/handler/sql_handler.py:23-90 | the method runs the five drops, ignoring each refusal, then the five creates in order |
| SqlHandler.CreateTablesInstalls | src/data/solution/handler/sql_handler.py:23-87 | from any state in which no other table references the five and those of the five that exist have the definitions `create_tables` gives them, the result is the five tables as defined and empty, with every other table untouched |
| SqlHandler.DropAllKeepsOthers | src/data/solution/handler/sql_handler.py:27-33 | the drop loop removes no table but those it names, and adds none |
| SqlHandler.CreateEach | src/data/solution/handler/sql_handler.py:36-87 | a refused CREATE TABLE raises DatabaseError and stops the run |
| SqlHandler.CreateEachEffect | src/data/solution/handler/sql_handler.py:36-87 | creates that all go through found none of their tables, installed each with its definition and no rows, kept every earlier table and added no other |
| SqlHandler.CreateAll | src/data/solution/handler/sql_handler.py:36-87 | a refused create of the five raises DatabaseError |
| SqlHandler.CreateAllEffect | src/data/solution/handler/sql_handler.py:36-87 | the five creates succeed only when none of the five exists, and then install the five definitions with no rows, keeping every other table; the tables afterwards are the old ones plus the five |
| SqlHandler.CreateAllOnCleared | src/data/solution/handler/sql_handler.py:36-87 | with none of the five present, the creates succeed and add exactly the five empty tables |
| SqlHandler.CreateTablesBlocked | src/data/solution/handler/sql_handler.py:27-43 | a foreign table referencing A_PERSON makes its drop fail silently, and then the CREATE of A_PERSON raises |
| SqlHandler.DropUnblocked | src/data/solution/handler/sql_handler.py:29-33 | a table nobody references is dropped, and only it |
| SqlHandler.OwnReferences | src/data/solution/handler/sql_handler.py:27 | in the drop order, no table is still referenced when its turn comes |
| SqlHandler.DropPrefix | src/data/solution/handler/sql_handler.py:28-33 | after the first i drops, exactly the first i tables of the list are gone |
| SqlHandler.DropKeepsOthers | src/data/solution/handler/sql_handler.py:28-33 | a drop never changes another table's definition |
| SqlHandler.DropStep | src/data/solution/handler/sql_handler.py:28-33 | the i-th drop removes exactly the i-th table of the list and keeps the database well formed |
| SqlHandler.FewerTables | src/data/solution/handler/sql_handler.py:28-33 | removing tables never creates an outside reference to the five |
| SqlHandler.CreateEntityTables | src/data/solution/handler/sql_handler.py:36-63 | on a cleared database the first three creates add the three entity tables, empty |
| SqlHandler.CreateEachWellFormed | src/data/solution/handler/sql_handler.py:36-87 | any run of successful creates of the five tables keeps the database well formed |
| SqlHandler.CreateAllWellFormed | src/data/solution/handler/sql_handler.py:36-87 | successful creates leave the database well formed |
| SqlHandler.InstalledIsReady | src/data/solution/handler/sql_handler.py:23-87 | the installed state is well formed with the five tables empty |
| SqlHandler.InstalledTables | src/data/solution/handler/sql_handler.py:23-87 | after installation each of the five tables has its definition and no rows |
| SqlHandler.InsertData | src/data/solution/handler/sql_handler.py:92-114 | a committed load keeps the schema and keeps the database well formed |
| SqlHandler.PersonStored | src/data/solution/handler/sql_handler.py:97-98 | a fitting person is stored as its row; `male` becomes 1 or 0 and an empty name NULL |
| SqlHandler.DepartmentStored | src/data/solution/handler/sql_handler.py:101-102 | a fitting department is stored as its row |
| SqlHandler.ProjectStored | src/data/solution/handler/sql_handler.py:105-106 | a fitting project is stored as its row; the deadline becomes a date at midnight |
| SqlHandler.DeptAssignmentStored | src/data/solution/handler/sql_handler.py:109 | a fitting department assignment is stored as its row |
| SqlHandler.ProjAssignmentStored | src/data/solution/handler/sql_handler.py:110 | a fitting project assignment is stored as its row |
| SqlHandler.PeopleInserted | src/data/solution/handler/sql_handler.py:97-98 | fitting people with distinct ids fill the empty A_PERSON table, in order |
| SqlHandler.DepartmentsInserted | src/data/solution/handler/sql_handler.py:101-102 | fitting departments with distinct ids fill A_DEPARTMENT, in order |
| SqlHandler.ProjectsInserted | src/data/solution/handler/sql_handler.py:105-106 | fitting projects with distinct ids fill A_PROJECT, in order |
| SqlHandler.DeptAssignmentsInserted | src/data/solution/handler/sql_handler.py:109 | department assignments that fit, name stored people and departments, and give each person at most once fill A_PERSON_DEPARTMENT |
| SqlHandler.ProjAssignmentsInserted | src/data/solution/handler/sql_handler.py:110 | distinct project assignments that fit and name stored people and projects fill A_PERSON_PROJECT |
| SqlHandler.PersonReferenced | src/data/solution/handler/sql_handler.py:73 | a person id is accepted as a reference exactly when a loaded person has it |
| SqlHandler.DepartmentReferenced | src/data/solution/handler/sql_handler.py:74 | a department id is accepted as a reference exactly when a loaded department has it |
| SqlHandler.ProjectReferenced | src/data/solution/handler/sql_handler.py:85 | a project id is accepted as a reference exactly when a loaded project has it |
| SqlHandler.DeptAssignmentKeysUnique | src/data/solution/handler/sql_handler.py:72 | department assignments have unique keys exactly when no person appears twice |
| SqlHandler.ProjAssignmentKeysUnique | src/data/solution/handler/sql_handler.py:83 | project assignments have unique keys exactly when no pair appears twice |
| SqlHandler.InsertDataLoads | src/data/solution/handler/sql_handler.py:92-112 | on freshly created tables, a data set that satisfies the constraints is committed whole: each table holds its rows in order |
| SqlHandler.InsertDataConsistent | src/data/solution/handler/sql_handler.py:92-112 | a committed load leaves every key and foreign key satisfied |
| SqlHandler.InsertDataStored | src/data/solution/handler/sql_handler.py:92-112 | after a committed load, each table holds exactly one stored row per record of its list |
| SqlHandler.EntitiesLoad | src/data/solution/handler/sql_handler.py:97-106 | on ready tables, loadable people, departments and projects are inserted and fill their tables in order |
| SqlHandler.AssignmentsLoad | src/data/solution/handler/sql_handler.py:109-110 | with the entities loaded, assignments that fit and refer to loaded rows are inserted and fill their tables |
| SqlHandler.InsertIntoEmpty | src/data/solution/handler/sql_handler.py:98 | a successful executemany into an empty table leaves exactly the stored rows and the other entity tables unchanged |
| SqlHandler.DeptAssignmentAdmitted | src/data/solution/handler/sql_handler.py:109 | a fitting department assignment naming loaded rows stores as its row with its key and foreign keys satisfied |
| SqlHandler.ProjAssignmentAdmitted | src/data/solution/handler/sql_handler.py:110 | a fitting project assignment naming loaded rows stores as its row with its key and foreign keys satisfied |
| SqlHandler.PersonRowOf | src/data/solution/handler/sql_handler.py:97-98 | a person stored with a non-null key was storable and is stored as its own row |
| SqlHandler.DepartmentRowOf | src/data/solution/handler/sql_handler.py:101-102 | a department stored with a non-null key was storable and is stored as its own row |
| SqlHandler.ProjectRowOf | src/data/solution/handler/sql_handler.py:105-106 | a project stored with a non-null key was storable and is stored as its own row |
| SqlHandler.DeptAssignmentRowAccepted | src/data/solution/handler/sql_handler.py:109 | an accepted department assignment row fits and names a loaded person and department |
| SqlHandler.ProjAssignmentRowAccepted | src/data/solution/handler/sql_handler.py:110 | an accepted project assignment row fits and names a loaded person and project |
| SqlHandler.PeopleAccepted | src/data/solution/handler/sql_handler.py:97-98 | people the table accepted fit their columns and have distinct ids |
| SqlHandler.DepartmentsAccepted | src/data/solution/handler/sql_handler.py:101-102 | departments the table accepted fit their columns and have distinct ids |
| SqlHandler.ProjectsAccepted | src/data/solution/handler/sql_handler.py:105-106 | projects the table accepted fit their columns and have distinct ids |
| SqlHandler.DeptAssignmentsAccepted | src/data/solution/handler/sql_handler.py:109 | accepted department assignments fit, name loaded rows, and list each person once |
| SqlHandler.ProjAssignmentsAccepted | src/data/solution/handler/sql_handler.py:110 | accepted project assignments fit, name loaded rows, and are distinct |
| SqlHandler.InsertDataAccepts | src/data/solution/handler/sql_handler.py:92-112 | a committed load implies that the data set satisfied every constraint |
| SqlHandler.InsertDataOutcome | src/data/solution/handler/sql_handler.py:92-112 | on freshly created tables, `insert_data` commits exactly when the data set is Loadable (every value fits its column, ids are unique per table, each person has at most one department assignment, no project assignment repeats, and assignments name stored rows), and then commits exactly that data |
| SqlHandler.TextOf | src/data/solution/handler/sql_handler.py:121 | a text argument is accepted exactly when the value is text |
| SqlHandler.NumOf | src/data/solution/handler/sql_handler.py:121 | a number argument is accepted exactly when the value is a number |
| SqlHandler.DateOf | src/data/solution/handler/sql_handler.py:132-133 | a deadline is accepted exactly when it arrives as a date-time, and gives that date |
| SqlHandler.ReadData | src/data/solution/handler/sql_handler.py:116-138 | the method succeeds exactly when all three table reads do, and returns their records in the cursor's order |
| SqlHandler.Truthy | src/data/solution/handler/sql_handler.py:121 | `bool()` of a value is false exactly for NULL, the empty string and 0 |
| SqlHandler.PersonOfRow | src/data/solution/handler/sql_handler.py:121 | IndexError below four values; otherwise accepted exactly when id and name are strings and age a number, and the person holds them, with `male` the truth of the fourth value |
| SqlHandler.DepartmentOfRow | src/data/solution/handler/sql_handler.py:125 | IndexError below three values; otherwise accepted exactly when id and name are strings and floor a number, and the department holds them |
| SqlHandler.ProjectOfRow | src/data/solution/handler/sql_handler.py:130-134 | IndexError below five values; otherwise accepted exactly when the deadline is a datetime and the other fields have their types, and the project holds them, the deadline as its date |
| SqlHandler.PeopleOf | src/data/solution/handler/sql_handler.py:120-121 | the SELECT's error is passed on; otherwise the read succeeds exactly when every row converts, and gives one person per stored row |
| SqlHandler.DepartmentsOf | src/data/solution/handler/sql_handler.py:124-125 | the same for departments |
| SqlHandler.ProjectsOf | src/data/solution/handler/sql_handler.py:128-134 | the same for projects |
| SqlHandler.CursorOrder | src/data/solution/handler/sql_handler.py:130 | a cursor yields exactly the selected rows, in some order |
| SqlHandler.PersonRowRoundTrip | src/data/solution/handler/sql_handler.py:97-121 | a stored person with a non-empty name reads back equal, `male` included |
| SqlHandler.DepartmentRowRoundTrip | src/data/solution/handler/sql_handler.py:101-125 | a stored department with a non-empty name reads back equal |
| SqlHandler.ProjectRowRoundTrip | src/data/solution/handler/sql_handler.py:105-134 | a stored project with a non-empty name and status reads back equal, deadline included |
| SqlHandler.EmptyNameNotReadBack | src/data/solution/handler/sql_handler.py:97-125 | an empty name is stored as NULL and does not read back as the record that was written |
| SqlHandler.SelectsNameAllColumns | src/data/solution/handler/sql_handler.py:120-128 | each SELECT lists every column of its table in definition order |
| SqlHandler.PeopleReadBack | src/data/solution/handler/sql_handler.py:120-121 | a person table holding the records of people with non-empty ids and names reads back as those people |
| SqlHandler.DepartmentsReadBack | src/data/solution/handler/sql_handler.py:124-125 | a department table holding such records reads back as those departments |
| SqlHandler.ProjectsReadBack | src/data/solution/handler/sql_handler.py:128-134 | a project table holding records of projects with non-empty text fields reads back as those projects |
| SqlHandler.ReadBackLoaded | src/data/solution/handler/sql_handler.py:92-138 | after creating the tables and a committed load of records with non-empty text fields, the three reads return exactly the loaded lists |
| SqlHandler.ReadBeforeCreate | src/data/solution/handler/sql_handler.py:120 | reading without A_PERSON raises DatabaseError |
| SqlHandler.ReadIgnoresAssignments | src/data/solution/handler/sql_handler.py:116-138 | the assignment tables do not affect what `read_data` returns |

## Left out

- File I/O, paths, encodings and the `with open(...)` plumbing are not modelled. A backend's file is its contents: cell rows, a JSON value with its indent, typed worksheet cells, or a database state.
- CsvHandler.PeopleRoundTrip: the readers open their files without `newline=""`. A `\r` or `\r\n` inside a quoted cell therefore comes back as `\n`. A cell longer than the csv module's default field size limit of 131072 characters raises `_csv.Error`. The round trip is stated on rows of cells and sees neither.
- CsvHandler.DepartmentsRoundTrip: the same newline translation and field size limit apply.
- CsvHandler.ProjectsRoundTrip: the same newline translation and field size limit apply.
- CsvHandler.DeptAssignmentsRoundTrip: the same newline translation and field size limit apply.
- CsvHandler.ProjAssignmentsRoundTrip: the same newline translation and field size limit apply.
- CsvHandler.LineRoundTrip: the csv module's quoting of cells that hold the delimiter, quotes or line breaks is not modelled. The line round trip is proved only for cells that need no quoting, and the table round trips work at the level of cell rows.
- JSON text, whitespace, key order and float numbers are not modelled. A JSON number is an integer, so a float budget or floor is out of scope.
- Dates.FromIsoFormat: only the `YYYY-MM-DD` form is modelled. The other forms Python 3.11 also accepts (`YYYYMMDD`, week dates) are not.
- Choice.Random01 and Generator.GeneratePeople: `male_ratio` is a real number, not a binary float, and no distribution is modelled. Only the bounds of each draw are stated.
- Generator.GenerateProjects: the deadline is any date. Faker's "future, within two years" window needs a clock, which is not modelled.
- Generator.GeneratePeople: Faker's `unique` proxy is not modelled. Names are drawn from the pool with or without it.
- Faker's `locale` argument and the contents of its word pools are not modelled. A Faker instance is four non-empty pools.
- Typed arguments: Python would build a record holding a value of the wrong type without complaint. These readers refuse such a value with TypeError instead:
  - the CSV readers, for a missing (None) cell;
  - the JSON readers, for a JSON value of the wrong type;
  - the XLSX readers, for a non-string cell in a text field, and for a deadline cell that is neither a date, a date-time nor a string, such as a time of day; this refusal comes after `int(row[2])` and the `row[4]` lookup, so every exception Python raises is raised first;
  - the SQL reader, for NULL or a value of the wrong type in any field.
- XlsxHandler.IntOfCell: Excel's float numbers are not modelled. Numeric cells hold integers.
- The XLSX readers do not model the `int()` of a float cell or a date cell left as a non-string, non-date value.
- XlsxHandler.SaveCell: openpyxl writes a number as `"%.16g"` of its double. An integer above 2^53 in magnitude may come back rounded, and one beyond the double range raises OverflowError at save. The model keeps every number, so the XLSX round trips require the floor and the budget to lie within 2^53 (MaxExactNumber).
- XlsxHandler.Worksheet.Append: openpyxl raises IllegalCharacterError in `ws.append`, when a string holding a control character (U+0000 to U+0008, U+000B, U+000C, U+000E to U+001F) is bound to its cell. The model's append never raises, so the XLSX round trips also cover texts that the real writer refuses.
- XlsxHandler.DataRows: its own contract gives the number of rows read. Their contents are stated by XlsxHandler.DataRowsPadded, which keeps the padding facts out of the readers' proofs.
- Oracle: the server is reduced to what the handler's statements use. These are not modelled:
  - NUMBER precision beyond NUMBER(1);
  - how the driver returns a NUMBER column (the model gives integers);
  - byte versus character semantics of VARCHAR2 sizes;
  - any constraint other than keys and foreign keys.
- SqlHandler.CreateEach: its own contract states only the error raised. What a successful run installs is in the lemma `SqlHandler.CreateEachEffect`, because those quantified facts on the function made every proof that unfolds it too costly for the solver.
- SqlHandler.CreateAll: the same; what a successful run installs is in `SqlHandler.CreateAllEffect`.
- SqlHandler.InsertData: rows inserted before a refused row stay uncommitted in the connection's session. The model shows only the committed state, so a failed load changes nothing.
- The driver's implicit conversions of a wrongly typed bind value are not modelled. For example, a string of digits bound to a NUMBER column is refused.
- SqlHandler.ReadData: the order in which a cursor yields rows is any permutation. The read is therefore stated up to order, as multisets.
- Connections, `get_connection`, the `DB_*` settings read from the environment, and `.env` loading are not modelled. A connection is the database state it reaches.
- `print` statements are not modelled.
- `extra_pandas.py` and the program's entry point are not part of this model.
- Text: strings are sequences of characters. Unicode case mapping is modelled for ASCII letters only, in `title()`. `int()` accepts only ASCII digits here, where Python also accepts other Unicode decimal digits. The white space `int()` strips is Python's full `str.isspace` set.
- Text.ParseIntToString: Python's limit of 4300 decimal digits on `int()` of a string and `str()` of an integer is not modelled. A longer integer raises ValueError there. The integer round trips, this one and those of the CSV backend, hold only for integers up to that size.
- JsonHandler.DepartmentsRoundTrip: `json.dump` writes an integer with `int.__repr__` and `json.load` reads it with `int()`, so a floor of more than 4300 digits raises ValueError. The round trip holds only below that size.
- JsonHandler.ProjectsRoundTrip: the same 4300-digit limit applies to the budget.

Behaviour of the code worth noting:

- `generate_people` with a negative count returns an empty list; it does not raise.
- The XLSX readers skip a row whose first cell is empty and go on reading; they do not stop there.
- The CSV `male` cell is true exactly when it is the text "True".
- `read_data` does not read the assignment tables, so the SQL round trip covers people, departments and projects only.
- The text, document and spreadsheet backends do not check references.
- openpyxl writes 30 and 31 December 1899 as serial number 0, which it reads back as a time of day. A project with such a deadline does not come back with a date.
- Each person gets between min(1, |projects|) and min(3, |projects|) projects, so none when there are no projects.
