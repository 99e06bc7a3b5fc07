/**
 * The entity records: three dataclasses and the two assignment tuples.
 * Equality of records is field-wise (dataclass equality), which is
 * Dafny's datatype equality; hashing and ordering look at the id alone.
 */
module Model {
  import opened Text
  import opened Dates

  /** `male` defaults to true when the constructor is called without it. */
  datatype Person = Person(id: string, name: string, age: int, male: bool := true)

  datatype Department = Department(id: string, name: string, floor: int)

  /** `status` is by convention one of Statuses; nothing enforces it. */
  datatype Project = Project(id: string, name: string, budget: int, deadline: CalendarDate, status: string)

  /** The tuple `(person_id, department_id, job, salary)`. */
  datatype DeptAssignment = DeptAssignment(personId: string, departmentId: string, job: string, salary: int)

  /** The tuple `(person_id, project_id)`. */
  datatype ProjAssignment = ProjAssignment(personId: string, projectId: string)

  const Statuses: seq<string> := ["Active", "Completed", "Pending"]

  predicate HasKnownStatus(p: Project)
  {
    p.status in Statuses
  }

  /** `Person(id, name, age)` leaves `male` at its default. */
  lemma MaleByDefault(id: string, name: string, age: int)
    ensures Person(id, name, age).male
  {
  }

  /** `p < q` on Persons compares ids only. */
  predicate PersonLess(p: Person, q: Person)
  {
    StrLess(p.id, q.id)
  }

  /** The ordering is a strict order: irreflexive, asymmetric and transitive. */
  lemma PersonLessStrictOrder(p: Person, q: Person, r: Person)
    ensures !PersonLess(p, p)
    ensures PersonLess(p, q) ==> !PersonLess(q, p)
    ensures PersonLess(p, q) && PersonLess(q, r) ==> PersonLess(p, r)
  {
    StrLessIrreflexive(p.id);
    if PersonLess(p, q) {
      StrLessAsymmetric(p.id, q.id);
      if PersonLess(q, r) {
        StrLessTransitive(p.id, q.id, r.id);
      }
    }
  }

  /** Persons with different ids are always ordered one way round. */
  lemma PersonLessTotalOnIds(p: Person, q: Person)
    requires p.id != q.id
    ensures PersonLess(p, q) || PersonLess(q, p)
  {
    StrLessTotal(p.id, q.id);
  }

  /**
   * Same id, different name: the Persons are unequal, yet neither is less
   * than the other, so `<` is not a total order on records.
   */
  lemma SameIdIncomparable(p: Person, q: Person)
    requires p.id == q.id && p.name != q.name
    ensures p != q && !PersonLess(p, q) && !PersonLess(q, p)
  {
    StrLessIrreflexive(p.id);
  }

  /**
   * `hash(record)` is `hash(record.id)`; `strHash` stands for Python's
   * string hash, which is salted per process.
   */
  function PersonHash(strHash: string -> int, p: Person): int { strHash(p.id) }
  function DepartmentHash(strHash: string -> int, d: Department): int { strHash(d.id) }
  function ProjectHash(strHash: string -> int, p: Project): int { strHash(p.id) }

  /** Hashing agrees with equality: records with the same id hash alike, equal records in particular. */
  lemma HashDependsOnIdOnly(strHash: string -> int, p: Person, q: Person, d: Department, e: Department, x: Project, y: Project)
    ensures p.id == q.id ==> PersonHash(strHash, p) == PersonHash(strHash, q)
    ensures d.id == e.id ==> DepartmentHash(strHash, d) == DepartmentHash(strHash, e)
    ensures x.id == y.id ==> ProjectHash(strHash, x) == ProjectHash(strHash, y)
  {
  }

  /** `str(True)` and `str(False)`. */
  function BoolToString(b: bool): (s: string)
    ensures s == "True" <==> b
  {
    if b then "True" else "False"
  }

  /** Where each part of `str(person)` stands, given the formatted age and gender. */
  predicate PersonLayout(s: string, id: string, name: string, age: string, gender: string)
  {
    var i := |id| + 3 + |name|; var j := i + 2 + |age|;
    && |s| == j + |gender| + 3
    && OccursAt(s, 0, "#") && OccursAt(s, 1, id) && OccursAt(s, |id| + 1, ": ")
    && OccursAt(s, |id| + 3, name) && OccursAt(s, i, " (") && OccursAt(s, i + 2, age)
    && OccursAt(s, j, ", ") && OccursAt(s, j + 2, gender) && s[|s| - 1] == ')'
  }

  /** The f-string of `Person.__str__`, over the already formatted age and gender. */
  function PersonText(id: string, name: string, age: string, gender: string): (s: string)
    ensures PersonLayout(s, id, name, age, gender)
  {
    "#" + id + ": " + name + " (" + age + ", " + gender + ")"
  }

  /** `str(person)`: `#<id>: <name> (<age>, <True|False>)`. */
  function PersonToString(p: Person): (s: string)
    ensures PersonLayout(s, p.id, p.name, IntToString(p.age), BoolToString(p.male))
  {
    PersonText(p.id, p.name, IntToString(p.age), BoolToString(p.male))
  }

  /** Where each part of `str(department)` stands, given the formatted floor. */
  predicate DepartmentLayout(s: string, name: string, id: string, floor: string)
  {
    && |s| == |name| + |id| + |floor| + 16
    && OccursAt(s, 0, name) && OccursAt(s, |name|, " (ID: ") && OccursAt(s, |name| + 6, id)
    && OccursAt(s, |name| + |id| + 6, ", Floor: ") && OccursAt(s, |name| + |id| + 15, floor) && s[|s| - 1] == ')'
  }

  /** The f-string of `Department.__str__`, over the already formatted floor. */
  function DepartmentText(name: string, id: string, floor: string): (s: string)
    ensures DepartmentLayout(s, name, id, floor)
  {
    name + " (ID: " + id + ", Floor: " + floor + ")"
  }

  /** `str(department)`: `<name> (ID: <id>, Floor: <floor>)`. */
  function DepartmentToString(d: Department): (s: string)
    ensures DepartmentLayout(s, d.name, d.id, IntToString(d.floor))
  {
    DepartmentText(d.name, d.id, IntToString(d.floor))
  }

  /** Where each part of `str(project)` stands, given the formatted budget and deadline. */
  predicate ProjectLayout(s: string, name: string, id: string, budget: string, deadline: string, status: string)
  {
    var b := |name| + |id| + 16; var dl := b + |budget| + 12; var st := dl + |deadline| + 10;
    && |s| == st + |status| + 1
    && OccursAt(s, 0, name) && OccursAt(s, |name|, " (ID: ") && OccursAt(s, |name| + 6, id)
    && OccursAt(s, b - 10, ", Budget: ") && OccursAt(s, b, budget)
    && OccursAt(s, dl - 12, ", Deadline: ") && OccursAt(s, dl, deadline)
    && OccursAt(s, st - 10, ", Status: ") && OccursAt(s, st, status) && s[|s| - 1] == ')'
  }

  /** The f-string of `Project.__str__`, over the already formatted budget and deadline. */
  function ProjectText(name: string, id: string, budget: string, deadline: string, status: string): (s: string)
    ensures ProjectLayout(s, name, id, budget, deadline, status)
  {
    name + " (ID: " + id + ", Budget: " + budget + ", Deadline: " + deadline + ", Status: " + status + ")"
  }

  /** `str(project)`: name, then id, budget, ISO deadline and status in parentheses. */
  function ProjectToString(p: Project): (s: string)
    ensures ProjectLayout(s, p.name, p.id, IntToString(p.budget), IsoFormat(p.deadline), p.status)
  {
    ProjectText(p.name, p.id, IntToString(p.budget), IsoFormat(p.deadline), p.status)
  }

  /**
   * The decimal text of x ends at position e of s, right after the
   * character marker.
   */
  predicate IntEndsAt(s: string, e: nat, x: int, marker: char)
  {
    var a := IntToString(x);
    |a| < e <= |s| && s[e - |a| - 1] == marker && OccursAt(s, e - |a|, a)
  }

  /** No character of an integer's text, standing in s from start on, is the marker. */
  lemma IntTextAvoids(s: string, start: nat, x: int, marker: char)
    requires !IsDigit(marker) && marker != '-'
    requires OccursAt(s, start, IntToString(x))
    ensures forall j :: start <= j < start + |IntToString(x)| ==> s[j] != marker
  {
    var a := IntToString(x);
    forall j | start <= j < start + |a|
      ensures s[j] != marker
    {
      assert s[j] == a[j - start];
    }
  }

  /**
   * An integer whose text ends at a given position, right after a marker
   * no integer text holds, is determined by the text: two such integers
   * are equal.
   */
  lemma SameTrailingInt(s: string, e: nat, x: int, y: int, marker: char)
    requires !IsDigit(marker) && marker != '-'
    requires IntEndsAt(s, e, x, marker) && IntEndsAt(s, e, y, marker)
    ensures x == y
  {
    var a, b := IntToString(x), IntToString(y);
    IntTextAvoids(s, e - |a|, x, marker);
    IntTextAvoids(s, e - |b|, y, marker);
    assert |a| == |b|;
    assert a == b;
    ParseIntToString(x);
    ParseIntToString(y);
  }

  /** `str(person)` gives the age and the gender away: equal texts mean equal ages and genders. */
  lemma PersonToStringDeterminesAgeAndGender(p: Person, q: Person)
    requires PersonToString(p) == PersonToString(q)
    ensures p.age == q.age && p.male == q.male
  {
    PersonToStringTail(p);
    PersonToStringTail(q);
    SameAgeAndGender(PersonToString(p), p.age, p.male, q.age, q.male);
  }

  /** A text that ends in ` (<age>, <True|False>)`, read from the end. */
  predicate EndsWithAgeAndGender(s: string, age: int, male: bool)
  {
    && |s| >= |BoolToString(male)| + 3 && (s[|s| - 5..] == "True)" <==> male)
    && IntEndsAt(s, |s| - |BoolToString(male)| - 3, age, '(')
  }

  /** `str(person)` ends with its age and gender. */
  lemma PersonToStringTail(p: Person)
    ensures EndsWithAgeAndGender(PersonToString(p), p.age, p.male)
  {
    PersonToStringGender(p);
    PersonToStringAge(p);
  }

  /** `str(person)` ends with `True)` exactly for a male person. */
  lemma PersonToStringGender(p: Person)
    ensures var s, g := PersonToString(p), BoolToString(p.male);
      |s| >= |g| + 3 && (s[|s| - 5..] == "True)" <==> p.male)
  {
    var s, g := PersonToString(p), BoolToString(p.male);
    assert s[|s| - 5] == g[|g| - 4];
    if p.male {
      assert forall k :: 0 <= k < 4 ==> s[|s| - 5 + k] == g[k];
      assert s[|s| - 5..] == "True)";
    }
  }

  /** In `str(person)` the age ends three characters before the gender, after `(`. */
  lemma PersonToStringAge(p: Person)
    ensures var s, g := PersonToString(p), BoolToString(p.male); IntEndsAt(s, |s| - |g| - 3, p.age, '(')
  {
    var s, a, g := PersonToString(p), IntToString(p.age), BoolToString(p.male);
    assert |s| - |g| - 3 - |a| == |p.id| + 5 + |p.name|;
  }

  /** One text cannot end with two different ages or genders. */
  lemma SameAgeAndGender(s: string, x: int, m: bool, y: int, n: bool)
    requires EndsWithAgeAndGender(s, x, m) && EndsWithAgeAndGender(s, y, n)
    ensures x == y && m == n
  {
    assert m == n;
    SameTrailingInt(s, |s| - |BoolToString(m)| - 3, x, y, '(');
  }

  /** A text that ends in ` <floor>)`. */
  predicate EndsWithFloor(s: string, floor: int)
  {
    |s| >= 1 && IntEndsAt(s, |s| - 1, floor, ' ')
  }

  /** `str(department)` ends with its floor. */
  lemma DepartmentToStringTail(d: Department)
    ensures EndsWithFloor(DepartmentToString(d), d.floor)
  {
    var s, f := DepartmentToString(d), IntToString(d.floor);
    assert OccursAt(s, |d.name| + |d.id| + 15, f);
    assert s[|d.name| + |d.id| + 14] == ' ';
    assert |s| - 1 - |f| == |d.name| + |d.id| + 15;
  }

  /** One text cannot end with two different floors. */
  lemma SameFloor(s: string, x: int, y: int)
    requires EndsWithFloor(s, x) && EndsWithFloor(s, y)
    ensures x == y
  {
    SameTrailingInt(s, |s| - 1, x, y, ' ');
  }

  /** `str(department)` gives the floor away: equal texts mean equal floors. */
  lemma DepartmentToStringDeterminesFloor(d: Department, e: Department)
    requires DepartmentToString(d) == DepartmentToString(e)
    ensures d.floor == e.floor
  {
    DepartmentToStringTail(d);
    DepartmentToStringTail(e);
    SameFloor(DepartmentToString(d), d.floor, e.floor);
  }

  /**
   * Unlike the floor and the age, the budget cannot be read back from
   * `str(project)`: the status is free text and can repeat the layout,
   * so for any two budgets there are projects printed alike.
   */
  lemma ProjectToStringHidesBudget(x: int, y: int, d: CalendarDate) returns (p: Project, q: Project)
    ensures p.budget == x && q.budget == y && ProjectToString(p) == ProjectToString(q)
  {
    var a, b, dl := IntToString(x), IntToString(y), IsoFormat(d);
    p := Project("A", "N", x, d, "S" + " (ID: " + "B" + ", Budget: " + b + ", Deadline: " + dl + ", Status: " + "T");
    q := Project("B", "N" + " (ID: " + "A" + ", Budget: " + a + ", Deadline: " + dl + ", Status: " + "S", y, d, "T");
    ProjectTextRepeated("N", "A", a, "S", "B", b, dl, "T");
  }

  /** A project text whose status continues with a second project's layout. */
  lemma ProjectTextRepeated(name: string, id: string, a: string, s: string, id2: string, b: string, dl: string, t: string)
    ensures ProjectText(name, id, a, dl, s + " (ID: " + id2 + ", Budget: " + b + ", Deadline: " + dl + ", Status: " + t)
         == ProjectText(name + " (ID: " + id + ", Budget: " + a + ", Deadline: " + dl + ", Status: " + s, id2, b, dl, t)
  {
  }

  function PersonIds(ps: seq<Person>): (ids: seq<string>)
    ensures |ids| == |ps| && forall i :: 0 <= i < |ps| ==> ids[i] == ps[i].id
  {
    seq(|ps|, i requires 0 <= i < |ps| => ps[i].id)
  }

  function DepartmentIds(ds: seq<Department>): (ids: seq<string>)
    ensures |ids| == |ds| && forall i :: 0 <= i < |ds| ==> ids[i] == ds[i].id
  {
    seq(|ds|, i requires 0 <= i < |ds| => ds[i].id)
  }

  function ProjectIds(ps: seq<Project>): (ids: seq<string>)
    ensures |ids| == |ps| && forall i :: 0 <= i < |ps| ==> ids[i] == ps[i].id
  {
    seq(|ps|, i requires 0 <= i < |ps| => ps[i].id)
  }
}
