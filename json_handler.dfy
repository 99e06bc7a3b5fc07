/**
 * The JSON backend. A file holds one JSON value; the model keeps the value
 * itself and the indentation it is printed with, not its text.
 */
module JsonHandler {
  import opened Common
  import opened Dates
  import opened Model

  /** JSON values without floating-point numbers; an object's member order plays no part here. */
  datatype Json =
    | JNull
    | JBool(b: bool)
    | JInt(i: int)
    | JString(s: string)
    | JArray(items: seq<Json>)
    | JObject(members: map<string, Json>)

  /** What `json.dump` writes: a value, pretty-printed with two spaces or on one line. */
  datatype JsonDocument = JsonDocument(value: Json, indent: Option<nat>)

  /** `indent=2 if pretty else None`. */
  function Indent(pretty: bool): (r: Option<nat>)
    ensures r.Some? <==> pretty
    ensures r.Some? ==> r.value == 2
  {
    if pretty then Some(2) else None
  }

  const DepartmentKeys: set<string> := {"id", "name", "floor"}
  const ProjectKeys: set<string> := {"id", "name", "budget", "deadline", "status"}

  /** `dept.__dict__`. */
  function DepartmentObject(d: Department): Json
  {
    JObject(map["id" := JString(d.id), "name" := JString(d.name), "floor" := JInt(d.floor)])
  }

  /** A copy of `proj.__dict__` whose deadline is its ISO text. */
  function ProjectObject(p: Project): Json
  {
    JObject(map["id" := JString(p.id), "name" := JString(p.name), "budget" := JInt(p.budget),
                "deadline" := JString(IsoFormat(p.deadline)), "status" := JString(p.status)])
  }

  /** `write_departments`: the list of department dicts, indented when `pretty`. */
  function WriteDepartments(departments: seq<Department>, pretty: bool): (doc: JsonDocument)
    ensures doc.indent == Indent(pretty)
    ensures doc.value.JArray? && |doc.value.items| == |departments|
    ensures forall i :: 0 <= i < |departments| ==> DepartmentOfObject(doc.value.items[i]) == Ok(departments[i])
  {
    forall i | 0 <= i < |departments|
      ensures DepartmentOfObject(DepartmentObject(departments[i])) == Ok(departments[i])
    {
      DepartmentObjectRoundTrip(departments[i]);
    }

    JsonDocument(JArray(Map(DepartmentObject, departments)), Indent(pretty))
  }

  /** The document `write_projects` produces. */
  function ProjectsDocument(projects: seq<Project>, pretty: bool): JsonDocument
  {
    JsonDocument(JArray(Map(ProjectObject, projects)), Indent(pretty))
  }

  /** `write_projects`: builds the list one project dict at a time, then dumps it. */
  method WriteProjects(projects: seq<Project>, pretty: bool) returns (doc: JsonDocument)
    ensures doc == ProjectsDocument(projects, pretty)
  {
    var data: seq<Json> := [];
    for i := 0 to |projects|
      invariant data == Map(ProjectObject, projects[..i])
    {
      MapSnoc(ProjectObject, projects, i);
      data := data + [ProjectObject(projects[i])];
    }
    assert projects[..|projects|] == projects;
    doc := JsonDocument(JArray(data), Indent(pretty));
  }

  /**
   * `for d in data`: an array yields its items and a string its characters.
   * An object yields its keys, which are strings; since a string is neither
   * a mapping nor indexable by a key, a non-empty object fails on its first
   * element with TypeError, which is reported here directly. Other values
   * are not iterable.
   */
  function Elements(v: Json): (r: Result<seq<Json>>)
    ensures v.JArray? ==> r == Ok(v.items)
    ensures v.JString? ==> r.Ok? && |r.value| == |v.s| && forall i :: 0 <= i < |v.s| ==> r.value[i] == JString([v.s[i]])
    ensures v.JObject? ==> r == if |v.members| == 0 then Ok([]) else Err(TypeError)
    ensures (v.JNull? || v.JBool? || v.JInt?) ==> r == Err(TypeError)
  {
    match v
    case JArray(items) => Ok(items)
    case JString(s) => Ok(seq(|s|, i requires 0 <= i < |s| => JString([s[i]])))
    case JObject(m) => if |m| == 0 then Ok([]) else Err(TypeError)
    case _ => Err(TypeError)
  }

  /**
   * `Department(**d)`: d must be an object with exactly the three fields;
   * a missing or extra key is a TypeError, and so, in this model, is a
   * value of the wrong JSON type.
   */
  function DepartmentOfObject(v: Json): (r: Result<Department>)
    ensures r.Err? ==> r.error == TypeError
    ensures r.Ok? ==> DepartmentObject(r.value) == v
  {
    if !v.JObject? || v.members.Keys != DepartmentKeys then Err(TypeError)
    else
      var m := v.members;
      if m["id"].JString? && m["name"].JString? && m["floor"].JInt? then
        var d := Department(m["id"].s, m["name"].s, m["floor"].i);
        assert DepartmentObject(d).members == m;
        Ok(d)
      else Err(TypeError)
  }

  /** `read_departments`: every element converted, or the first exception. */
  function ReadDepartments(doc: JsonDocument): (r: Result<seq<Department>>)
    ensures Elements(doc.value).Err? ==> r == Err(Elements(doc.value).error)
    ensures Elements(doc.value).Ok? ==>
      (r.Ok? <==> forall i :: 0 <= i < |Elements(doc.value).value| ==> DepartmentOfObject(Elements(doc.value).value[i]).Ok?)
    ensures r.Err? ==> r.error == TypeError
    ensures r.Ok? ==>
      && |r.value| == |Elements(doc.value).value|
      && forall i :: 0 <= i < |r.value| ==> DepartmentObject(r.value[i]) == Elements(doc.value).value[i]
  {
    var items :- Elements(doc.value);
    MapAllValues(DepartmentOfObject, items);
    var r := MapAll(DepartmentOfObject, items);
    if r.Ok? then MapAllOk(DepartmentOfObject, items); r else r
  }

  /** `date.fromisoformat(v)`: TypeError unless v is a string. */
  function DateOfJson(v: Json): (r: Result<CalendarDate>)
    ensures !v.JString? ==> r == Err(TypeError)
    ensures v.JString? && r.Err? ==> r.error == ValueError
    ensures r.Ok? ==> v == JString(IsoFormat(r.value))
  {
    match v
    case JString(s) => FromIsoFormat(s)
    case _ => Err(TypeError)
  }

  /**
   * One pass of the read loop: `d["deadline"]` is looked up and parsed
   * first (KeyError when absent, TypeError when d is not an object), then
   * `Project(**d)` demands exactly the five fields.
   */
  function ProjectOfObject(v: Json): (r: Result<Project>)
    ensures !v.JObject? ==> r == Err(TypeError)
    ensures r == Err(KeyError) <==> v.JObject? && "deadline" !in v.members
    ensures v.JObject? && "deadline" in v.members && DateOfJson(v.members["deadline"]).Err? ==>
      r == Err(DateOfJson(v.members["deadline"]).error)
    ensures r.Ok? ==> ProjectObject(r.value) == v
  {
    if !v.JObject? then Err(TypeError)
    else if "deadline" !in v.members then Err(KeyError)
    else
      var m := v.members;
      var deadline :- DateOfJson(m["deadline"]);
      if m.Keys != ProjectKeys then Err(TypeError)
      else if m["id"].JString? && m["name"].JString? && m["budget"].JInt? && m["status"].JString? then
        var p := Project(m["id"].s, m["name"].s, m["budget"].i, deadline, m["status"].s);
        ProjectOfMembers(m, p);
        Ok(p)
      else Err(TypeError)
  }

  /** A dict with exactly the five keys is the dict of the project built from its values. */
  lemma ProjectOfMembers(m: map<string, Json>, p: Project)
    requires m.Keys == ProjectKeys && m["deadline"] == JString(IsoFormat(p.deadline))
    requires m["id"] == JString(p.id) && m["name"] == JString(p.name)
    requires m["budget"] == JInt(p.budget) && m["status"] == JString(p.status)
    ensures ProjectObject(p) == JObject(m)
  {
    assert ProjectObject(p).members == m;
  }

  /** What `read_projects` returns or raises. */
  function ProjectsOfDocument(doc: JsonDocument): (r: Result<seq<Project>>)
    ensures Elements(doc.value).Err? ==> r == Err(Elements(doc.value).error)
    ensures Elements(doc.value).Ok? ==>
      (r.Ok? <==> forall i :: 0 <= i < |Elements(doc.value).value| ==> ProjectOfObject(Elements(doc.value).value[i]).Ok?)
    ensures r.Ok? ==>
      && |r.value| == |Elements(doc.value).value|
      && forall i :: 0 <= i < |r.value| ==> ProjectObject(r.value[i]) == Elements(doc.value).value[i]
  {
    var items :- Elements(doc.value);
    MapAllValues(ProjectOfObject, items);
    var r := MapAll(ProjectOfObject, items);
    if r.Ok? then MapAllOk(ProjectOfObject, items); r else r
  }

  /** `read_projects`: the loop that converts each element and appends it, stopping at the first exception. */
  method ReadProjects(doc: JsonDocument) returns (r: Result<seq<Project>>)
    ensures r == ProjectsOfDocument(doc)
  {
    var data := Elements(doc.value);
    if data.Err? {
      return Err(data.error);
    }
    var items := data.value;
    var projects: seq<Project> := [];
    for i := 0 to |items|
      invariant MapAll(ProjectOfObject, items[..i]) == Ok(projects)
    {
      MapAllStep(ProjectOfObject, items, i, projects);
      var p := ProjectOfObject(items[i]);
      if p.Err? {
        return Err(p.error);
      }
      projects := projects + [p.value];
    }
    assert items[..|items|] == items;
    r := Ok(projects);
  }

  // ---------------------------------------------------------------------
  // Round trips and error cases

  lemma DepartmentObjectRoundTrip(d: Department)
    ensures DepartmentOfObject(DepartmentObject(d)) == Ok(d)
  {
    var m := DepartmentObject(d).members;
    assert m.Keys == DepartmentKeys;
  }

  /** The five field names are different strings, so each lookup finds its own field. */
  lemma ProjectKeyNamesDiffer()
    ensures "id" != "name" && "id" != "budget" && "id" != "deadline" && "id" != "status"
    ensures "name" != "budget" && "name" != "deadline" && "name" != "status"
    ensures "budget" != "deadline" && "budget" != "status" && "deadline" != "status"
  {
    assert |"id"| == 2 && |"name"| == 4 && |"budget"| == 6 && |"deadline"| == 8 && |"status"| == 6;
    assert "budget"[0] != "status"[0];
  }

  lemma ProjectObjectRoundTrip(p: Project)
    ensures ProjectOfObject(ProjectObject(p)) == Ok(p)
  {
    ProjectKeyNamesDiffer();
    var m := ProjectObject(p).members;
    assert m.Keys == ProjectKeys;
    IsoRoundTrip(p.deadline);
    assert DateOfJson(m["deadline"]) == Ok(p.deadline);
    assert m["id"] == JString(p.id) && m["name"] == JString(p.name);
    assert m["budget"] == JInt(p.budget) && m["status"] == JString(p.status);
  }

  /** Departments written, pretty or not, read back equal and in order. */
  lemma DepartmentsRoundTrip(departments: seq<Department>, pretty: bool)
    ensures ReadDepartments(WriteDepartments(departments, pretty)) == Ok(departments)
  {
    forall i | 0 <= i < |departments|
      ensures DepartmentOfObject(DepartmentObject(departments[i])) == Ok(departments[i])
    {
      DepartmentObjectRoundTrip(departments[i]);
    }
    MapAllRoundTrip(DepartmentOfObject, DepartmentObject, departments);
  }

  /** Projects written, pretty or not, read back equal and in order; the deadline is a date again. */
  lemma ProjectsRoundTrip(projects: seq<Project>, pretty: bool)
    ensures ProjectsOfDocument(ProjectsDocument(projects, pretty)) == Ok(projects)
  {
    forall i | 0 <= i < |projects|
      ensures ProjectOfObject(ProjectObject(projects[i])) == Ok(projects[i])
    {
      ProjectObjectRoundTrip(projects[i]);
    }
    MapAllRoundTrip(ProjectOfObject, ProjectObject, projects);
  }

  /** The deadline is stored as its ISO text, never as a number or an object. */
  lemma ProjectDeadlineIsIsoText(p: Project)
    ensures ProjectObject(p).members["deadline"] == JString(IsoFormat(p.deadline))
    ensures |ProjectObject(p).members["deadline"].s| == 10
  {
  }

  /** An element without a deadline fails with KeyError, whatever else it holds. */
  lemma MissingDeadline(m: map<string, Json>)
    requires "deadline" !in m
    ensures ProjectOfObject(JObject(m)) == Err(KeyError)
  {
  }

  /** A department object with a field beyond the three is refused, even when the three are right. */
  lemma ExtraDepartmentKey(d: Department, key: string, v: Json)
    requires key !in DepartmentKeys
    ensures DepartmentOfObject(JObject(DepartmentObject(d).members[key := v])) == Err(TypeError)
  {
    var m := DepartmentObject(d).members[key := v];
    assert key in m.Keys && key !in DepartmentKeys;
  }

  /** A project object with a field beyond the five is refused after its deadline parses. */
  lemma ExtraProjectKey(p: Project, key: string, v: Json)
    requires key !in ProjectKeys
    ensures ProjectOfObject(JObject(ProjectObject(p).members[key := v])) == Err(TypeError)
  {
    var m := ProjectObject(p).members[key := v];
    assert key in m.Keys && key !in ProjectKeys;
    assert m["deadline"] == JString(IsoFormat(p.deadline));
    IsoRoundTrip(p.deadline);
  }

  /** A top-level number, boolean, null or non-empty object is not a list of records. */
  lemma NonListDocument(doc: JsonDocument)
    requires doc.value.JNull? || doc.value.JBool? || doc.value.JInt?
          || (doc.value.JObject? && |doc.value.members| > 0)
    ensures ReadDepartments(doc) == Err(TypeError)
    ensures ProjectsOfDocument(doc) == Err(TypeError)
  {
  }

  /** An empty object or an empty string at the top level reads as no records. */
  lemma EmptyContainerDocument(doc: JsonDocument)
    requires doc.value == JObject(map[]) || doc.value == JString("")
    ensures ReadDepartments(doc) == Ok([]) && ProjectsOfDocument(doc) == Ok([])
  {
  }
}
