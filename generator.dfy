/**
 * The dataset generator: people, departments and projects with sequential
 * zero-padded ids, and the two assignment relations built from random
 * draws. Every draw comes from module Choice.
 */
module Generator {
  import opened Common
  import opened Text
  import opened Dates
  import opened Model
  import opened Choice

  /** `"O-" + str(i).zfill(6)`. */
  function PersonId(i: nat): string { "O-" + ZFill(NatToString(i), 6) }

  /** `f"D-{str(i+1).zfill(3)}"`. */
  function DepartmentId(i: nat): string { "D-" + ZFill(NatToString(i + 1), 3) }

  /** `f"P-{str(i+1).zfill(3)}"`. */
  function ProjectId(i: nat): string { "P-" + ZFill(NatToString(i + 1), 3) }

  /** Padding never truncates, so different indices give different ids, and each has its prefix. */
  lemma IdsInjective(i: nat, j: nat)
    ensures PersonId(i) == PersonId(j) ==> i == j
    ensures DepartmentId(i) == DepartmentId(j) ==> i == j
    ensures ProjectId(i) == ProjectId(j) ==> i == j
    ensures |PersonId(i)| >= 8 && PersonId(i)[..2] == "O-" && AllDigits(PersonId(i)[2..])
  {
    if PersonId(i) == PersonId(j) {
      assert PersonId(i)[2..] == ZFill(NatToString(i), 6);
      assert PersonId(j)[2..] == ZFill(NatToString(j), 6);
      ZFillNatInjective(i, j, 6);
    }
    if DepartmentId(i) == DepartmentId(j) {
      assert DepartmentId(i)[2..] == ZFill(NatToString(i + 1), 3);
      assert DepartmentId(j)[2..] == ZFill(NatToString(j + 1), 3);
      ZFillNatInjective(i + 1, j + 1, 3);
    }
    if ProjectId(i) == ProjectId(j) {
      assert ProjectId(i)[2..] == ZFill(NatToString(i + 1), 3);
      assert ProjectId(j)[2..] == ZFill(NatToString(j + 1), 3);
      ZFillNatInjective(i + 1, j + 1, 3);
    }
    ZFillNat(i, 6);
    assert PersonId(i)[2..] == ZFill(NatToString(i), 6);
  }

  function Max0(n: int): nat { if n > 0 then n else 0 }

  /** What generate_people promises of the i-th person. */
  predicate IsGeneratedPerson(p: Person, i: nat, maleRatio: real, minAge: int, maxAge: int, fake: Faker)
  {
    && p.id == PersonId(i)
    && minAge <= p.age <= maxAge
    && (if p.male then p.name in fake.maleNames else p.name in fake.femaleNames)
    && (maleRatio >= 1.0 ==> p.male)
    && (maleRatio <= 0.0 ==> !p.male)
  }

  /**
   * `generate_people(n, male_ratio, min_age=..., max_age=...)`: max(n, 0)
   * people; a negative n gives none. An empty age range raises ValueError
   * from randint, but only once a person is drawn.
   */
  method GeneratePeople(n: int, maleRatio: real, minAge: int, maxAge: int, fake: Faker)
    returns (r: Result<seq<Person>>)
    requires ValidFaker(fake)
    ensures r.Err? <==> n > 0 && minAge > maxAge
    ensures r.Err? ==> r.error == ValueError
    ensures r.Ok? ==> |r.value| == Max0(n)
    ensures r.Ok? ==> forall i :: 0 <= i < |r.value| ==>
              IsGeneratedPerson(r.value[i], i, maleRatio, minAge, maxAge, fake)
  {
    var people: seq<Person> := [];
    var i: nat := 0;
    while i < n
      invariant i <= Max0(n) && |people| == i
      invariant i > 0 ==> minAge <= maxAge
      invariant forall k :: 0 <= k < i ==> IsGeneratedPerson(people[k], k, maleRatio, minAge, maxAge, fake)
    {
      var x := Random01();
      var male := x < maleRatio;
      var name;
      if male {
        name := Pick(fake.maleNames);
      } else {
        name := Pick(fake.femaleNames);
      }
      var age := RandInt(minAge, maxAge);
      if age.Err? {
        return Err(age.error);
      }
      people := people + [Person(PersonId(i), name, age.value, male)];
      i := i + 1;
    }
    return Ok(people);
  }

  /** A department name: a job title followed by " Department". */
  predicate IsDepartmentName(name: string, fake: Faker)
  {
    |name| >= 11 && name[|name| - 11..] == " Department" && name[..|name| - 11] in fake.jobs
  }

  /** `generate_departments(n)`: max(n, 0) departments with ids D-001, D-002, ... on floors 1 to 10. */
  method GenerateDepartments(n: int, fake: Faker) returns (departments: seq<Department>)
    requires ValidFaker(fake)
    ensures |departments| == Max0(n)
    ensures forall i :: 0 <= i < |departments| ==>
              && departments[i].id == DepartmentId(i)
              && IsDepartmentName(departments[i].name, fake)
              && 1 <= departments[i].floor <= 10
  {
    departments := [];
    var i: nat := 0;
    while i < n
      invariant i <= Max0(n) && |departments| == i
      invariant forall k :: 0 <= k < i ==>
                  && departments[k].id == DepartmentId(k)
                  && IsDepartmentName(departments[k].name, fake)
                  && 1 <= departments[k].floor <= 10
    {
      var job := Pick(fake.jobs);
      var name := job + " Department";
      assert name[..|name| - 11] == job;
      var floor := RandRange(1, 10);
      departments := departments + [Department(DepartmentId(i), name, floor)];
      i := i + 1;
    }
  }

  /** `fake.bs().title()` for every phrase of the pool. */
  function TitledPhrases(fake: Faker): seq<string>
  {
    Map(Title, fake.phrases)
  }

  /**
   * `generate_projects(n)`: max(n, 0) projects with ids P-001, ..., a
   * title-cased phrase as name, budget 10000 to 1000000 and a status out
   * of Active, Completed, Pending.
   */
  method GenerateProjects(n: int, fake: Faker) returns (projects: seq<Project>)
    requires ValidFaker(fake)
    ensures |projects| == Max0(n)
    ensures forall i :: 0 <= i < |projects| ==>
              && projects[i].id == ProjectId(i)
              && projects[i].name in TitledPhrases(fake)
              && 10000 <= projects[i].budget <= 1000000
              && HasKnownStatus(projects[i])
  {
    projects := [];
    var statuses := Statuses;
    var i: nat := 0;
    while i < n
      invariant i <= Max0(n) && |projects| == i
      invariant forall k :: 0 <= k < i ==>
                  && projects[k].id == ProjectId(k)
                  && projects[k].name in TitledPhrases(fake)
                  && 10000 <= projects[k].budget <= 1000000
                  && HasKnownStatus(projects[k])
    {
      var phrase := Pick(fake.phrases);
      var k :| 0 <= k < |fake.phrases| && fake.phrases[k] == phrase;
      assert TitledPhrases(fake)[k] == Title(phrase);
      var budget := RandRange(10000, 1000000);
      var deadline := AnyDate();
      var s := RandRange(0, |statuses| - 1);
      projects := projects + [Project(ProjectId(i), Title(phrase), budget, deadline, statuses[s])];
      i := i + 1;
    }
  }

  /** What assign_departments promises of the assignment made for `person`. */
  predicate IsDeptAssignmentFor(a: DeptAssignment, person: Person, departments: seq<Department>, fake: Faker)
  {
    && a.personId == person.id
    && a.departmentId in DepartmentIds(departments)
    && a.job in fake.jobs
    && 30000 <= a.salary <= 150000
  }

  /**
   * `assign_departments(people, departments)`: exactly one assignment per
   * person, in person order, to some listed department; random.choice
   * raises IndexError when there are people but no departments.
   */
  method AssignDepartments(people: seq<Person>, departments: seq<Department>, fake: Faker)
    returns (r: Result<seq<DeptAssignment>>)
    requires ValidFaker(fake)
    ensures r.Err? <==> |people| > 0 && |departments| == 0
    ensures r.Err? ==> r.error == IndexError
    ensures r.Ok? ==> |r.value| == |people|
    ensures r.Ok? ==> forall i :: 0 <= i < |people| ==>
              IsDeptAssignmentFor(r.value[i], people[i], departments, fake)
  {
    var assignments: seq<DeptAssignment> := [];
    var i := 0;
    while i < |people|
      invariant i <= |people| && |assignments| == i
      invariant i > 0 ==> |departments| > 0
      invariant forall k :: 0 <= k < i ==>
                  IsDeptAssignmentFor(assignments[k], people[k], departments, fake)
    {
      var d := ChoiceIndex(|departments|);
      if d.Err? {
        return Err(d.error);
      }
      var job := Pick(fake.jobs);
      var salary := RandRange(30000, 150000);
      assert DepartmentIds(departments)[d.value] == departments[d.value].id;
      assignments := assignments + [DeptAssignment(people[i].id, departments[d.value].id, job, salary)];
      i := i + 1;
    }
    return Ok(assignments);
  }

  /** How many projects one person may get: between min(1, |projects|) and min(3, |projects|). */
  predicate IsProjectPick(pick: seq<nat>, projectCount: nat)
  {
    && IsSample(pick, projectCount)
    && (if projectCount < 1 then projectCount else 1) <= |pick|
    && |pick| <= (if projectCount < 3 then projectCount else 3)
  }

  /** The assignments of one person to the picked projects, in pick order. */
  function PersonRow(person: Person, projects: seq<Project>, pick: seq<nat>): (row: seq<ProjAssignment>)
    requires forall j :: 0 <= j < |pick| ==> pick[j] < |projects|
    ensures |row| == |pick|
    ensures forall j :: 0 <= j < |pick| ==> row[j] == ProjAssignment(person.id, projects[pick[j]].id)
  {
    seq(|pick|, j requires 0 <= j < |pick| => ProjAssignment(person.id, projects[pick[j]].id))
  }

  predicate ValidPicks(picks: seq<seq<nat>>, projectCount: nat)
  {
    forall i :: 0 <= i < |picks| ==> IsProjectPick(picks[i], projectCount)
  }

  /** The rows of all people, person after person. */
  function Expand(people: seq<Person>, projects: seq<Project>, picks: seq<seq<nat>>): seq<ProjAssignment>
    requires |picks| == |people| && ValidPicks(picks, |projects|)
  {
    if people == [] then []
    else
      var n := |people| - 1;
      Expand(people[..n], projects, picks[..n]) + PersonRow(people[n], projects, picks[n])
  }

  /**
   * `assign_projects(people, projects)`: for each person in order, a draw
   * k in 1..3, capped by the number of projects, and k distinct projects
   * sampled without replacement. `picks` records the sampled positions.
   */
  method AssignProjects(people: seq<Person>, projects: seq<Project>)
    returns (assignments: seq<ProjAssignment>, ghost picks: seq<seq<nat>>)
    ensures |picks| == |people| && ValidPicks(picks, |projects|)
    ensures assignments == Expand(people, projects, picks)
    ensures forall a :: a in assignments ==>
              a.personId in PersonIds(people) && a.projectId in ProjectIds(projects)
  {
    assignments := [];
    picks := [];
    var i := 0;
    while i < |people|
      invariant i <= |people| && |picks| == i && ValidPicks(picks, |projects|)
      invariant assignments == Expand(people[..i], projects, picks)
    {
      var numProjects := RandRange(1, 3);
      var k := if numProjects < |projects| then numProjects else |projects|;
      var pick := Sample(|projects|, k);
      var j := 0;
      ghost var before := assignments;
      while j < |pick|
        invariant j <= |pick|
        invariant assignments == before + PersonRow(people[i], projects, pick[..j])
      {
        assert pick[..j + 1] == pick[..j] + [pick[j]];
        assignments := assignments + [ProjAssignment(people[i].id, projects[pick[j]].id)];
        j := j + 1;
      }
      assert pick[..j] == pick;
      assert people[..i + 1][..i] == people[..i];
      assert (picks + [pick])[..i] == picks;
      picks := picks + [pick];
      i := i + 1;
    }
    assert people[..i] == people;
    ExpandRefersToInputs(people, projects, picks);
  }

  /** Every expanded assignment names a listed person and a listed project. */
  lemma {:induction false} ExpandRefersToInputs(people: seq<Person>, projects: seq<Project>, picks: seq<seq<nat>>)
    requires |picks| == |people| && ValidPicks(picks, |projects|)
    ensures forall a :: a in Expand(people, projects, picks) ==>
              a.personId in PersonIds(people) && a.projectId in ProjectIds(projects)
  {
    if people != [] {
      var n := |people| - 1;
      assert ValidPicks(picks[..n], |projects|);
      ExpandRefersToInputs(people[..n], projects, picks[..n]);
      forall a | a in Expand(people, projects, picks)
        ensures a.personId in PersonIds(people) && a.projectId in ProjectIds(projects)
      {
        if a in Expand(people[..n], projects, picks[..n]) {
          var k :| 0 <= k < n && PersonIds(people[..n])[k] == a.personId;
          assert PersonIds(people)[k] == a.personId;
        } else {
          var row := PersonRow(people[n], projects, picks[n]);
          var j :| 0 <= j < |row| && row[j] == a;
          assert ProjectIds(projects)[picks[n][j]] == a.projectId;
          assert PersonIds(people)[n] == a.personId;
        }
      }
    }
  }

  /** Ids built from positions 0..n-1 are pairwise distinct. */
  lemma GeneratedIdsDistinct(people: seq<Person>, departments: seq<Department>, projects: seq<Project>)
    requires forall i :: 0 <= i < |people| ==> people[i].id == PersonId(i)
    requires forall i :: 0 <= i < |departments| ==> departments[i].id == DepartmentId(i)
    requires forall i :: 0 <= i < |projects| ==> projects[i].id == ProjectId(i)
    ensures Distinct(PersonIds(people))
    ensures Distinct(DepartmentIds(departments))
    ensures Distinct(ProjectIds(projects))
  {
    forall i, j | 0 <= i < j < |people| ensures people[i].id != people[j].id {
      IdsInjective(i, j);
    }
    forall i, j | 0 <= i < j < |departments| ensures departments[i].id != departments[j].id {
      IdsInjective(i, j);
    }
    forall i, j | 0 <= i < j < |projects| ensures projects[i].id != projects[j].id {
      IdsInjective(i, j);
    }
  }

  /** The assignments that name `personId`. */
  function AssignmentsOf(assignments: seq<ProjAssignment>, personId: string): seq<ProjAssignment>
  {
    Filter((a: ProjAssignment) => a.personId == personId, assignments)
  }

  /**
   * With distinct person ids, the assignments of the i-th person are
   * exactly that person's row: one per sampled project.
   */
  lemma {:induction false} ExpandAssignmentsOf(people: seq<Person>, projects: seq<Project>, picks: seq<seq<nat>>, i: nat)
    requires |picks| == |people| && ValidPicks(picks, |projects|)
    requires Distinct(PersonIds(people)) && i < |people|
    ensures AssignmentsOf(Expand(people, projects, picks), people[i].id) == PersonRow(people[i], projects, picks[i])
  {
    var n := |people| - 1;
    assert ValidPicks(picks[..n], |projects|);
    PersonIdsPrefixDistinct(people, n);
    ExpandLast(people, projects, picks);
    assert IsProjectPick(picks[n], |projects|);
    var row := PersonRow(people[n], projects, picks[n]);
    AssignmentsOfSnoc(Expand(people[..n], projects, picks[..n]), row, people[n].id, people[i].id);
    if i < n {
      ExpandAssignmentsOf(people[..n], projects, picks[..n], i);
      assert PersonIds(people)[i] != PersonIds(people)[n];
    } else {
      assert people[n].id !in PersonIds(people[..n]) by {
        forall k | 0 <= k < n ensures PersonIds(people[..n])[k] != people[n].id {
          assert PersonIds(people)[k] != PersonIds(people)[n];
        }
      }
      ExpandOtherPeople(people[..n], projects, picks[..n], people[n].id);
    }
  }

  /** Distinct ids stay distinct in a prefix. */
  lemma PersonIdsPrefixDistinct(people: seq<Person>, n: nat)
    requires Distinct(PersonIds(people)) && n <= |people|
    ensures Distinct(PersonIds(people[..n]))
  {
    forall a, b | 0 <= a < b < n ensures PersonIds(people[..n])[a] != PersonIds(people[..n])[b] {
      assert PersonIds(people)[a] != PersonIds(people)[b];
    }
  }

  /** The expansion of all people is that of all but the last, followed by the last person's row. */
  lemma ExpandLast(people: seq<Person>, projects: seq<Project>, picks: seq<seq<nat>>)
    requires |picks| == |people| && ValidPicks(picks, |projects|) && |people| > 0
    ensures ValidPicks(picks[..|people| - 1], |projects|)
    ensures Expand(people, projects, picks)
      == Expand(people[..|people| - 1], projects, picks[..|people| - 1]) + PersonRow(people[|people| - 1], projects, picks[|people| - 1])
  {
    assert ValidPicks(picks[..|people| - 1], |projects|);
  }

  /** Appending rows that all belong to `owner` adds to the assignments of `owner` only. */
  lemma AssignmentsOfSnoc(xs: seq<ProjAssignment>, row: seq<ProjAssignment>, owner: string, pid: string)
    requires forall j :: 0 <= j < |row| ==> row[j].personId == owner
    ensures AssignmentsOf(xs + row, pid) == AssignmentsOf(xs, pid) + (if pid == owner then row else [])
  {
    var p := (a: ProjAssignment) => a.personId == pid;
    FilterAppend(p, xs, row);
    if pid == owner {
      FilterAll(p, row);
    } else {
      FilterNone(p, row);
      assert Filter(p, xs) + [] == Filter(p, xs);
    }
  }

  /** A person not among `people` has no assignment in their expansion. */
  lemma {:induction false} ExpandOtherPeople(people: seq<Person>, projects: seq<Project>, picks: seq<seq<nat>>, pid: string)
    requires |picks| == |people| && ValidPicks(picks, |projects|)
    requires pid !in PersonIds(people)
    ensures AssignmentsOf(Expand(people, projects, picks), pid) == []
  {
    var xs := Expand(people, projects, picks);
    ExpandRefersToInputs(people, projects, picks);
    FilterNone((a: ProjAssignment) => a.personId == pid, xs);
  }

  lemma {:induction false} DistinctAppend<A>(xs: seq<A>, ys: seq<A>)
    requires Distinct(xs) && Distinct(ys)
    requires forall x :: x in xs ==> x !in ys
    ensures Distinct(xs + ys)
  {
    forall i, j | 0 <= i < j < |xs + ys| ensures (xs + ys)[i] != (xs + ys)[j] {
      if i < |xs| && j >= |xs| {
        assert (xs + ys)[i] in xs;
        assert (xs + ys)[j] == ys[j - |xs|];
      }
    }
  }

  /**
   * Referential and uniqueness facts of assign_projects: with distinct
   * person and project ids, no (person_id, project_id) pair occurs twice,
   * and each person has between min(1, |projects|) and min(3, |projects|)
   * assignments, all to different projects.
   */
  lemma {:induction false} ProjectAssignmentsWellFormed(people: seq<Person>, projects: seq<Project>, picks: seq<seq<nat>>)
    requires |picks| == |people| && ValidPicks(picks, |projects|)
    requires Distinct(PersonIds(people)) && Distinct(ProjectIds(projects))
    ensures Distinct(Expand(people, projects, picks))
    ensures forall i :: 0 <= i < |people| ==>
              var mine := AssignmentsOf(Expand(people, projects, picks), people[i].id);
              && (if |projects| < 1 then |projects| else 1) <= |mine|
              && |mine| <= (if |projects| < 3 then |projects| else 3)
              && Distinct(mine)
  {
    if people != [] {
      var n := |people| - 1;
      assert ValidPicks(picks[..n], |projects|);
      assert Distinct(PersonIds(people[..n])) by {
        forall a, b | 0 <= a < b < n ensures PersonIds(people[..n])[a] != PersonIds(people[..n])[b] {
          assert PersonIds(people)[a] != PersonIds(people)[b];
        }
      }
      ProjectAssignmentsWellFormed(people[..n], projects, picks[..n]);
      ExpandRefersToInputs(people[..n], projects, picks[..n]);
      var row := PersonRow(people[n], projects, picks[n]);
      RowDistinct(people[n], projects, picks[n]);
      forall x | x in Expand(people[..n], projects, picks[..n]) ensures x !in row {
        var k :| 0 <= k < n && PersonIds(people[..n])[k] == x.personId;
        assert PersonIds(people)[k] != PersonIds(people)[n];
      }
      DistinctAppend(Expand(people[..n], projects, picks[..n]), row);
      forall i | 0 <= i < |people|
        ensures var mine := AssignmentsOf(Expand(people, projects, picks), people[i].id);
                && (if |projects| < 1 then |projects| else 1) <= |mine|
                && |mine| <= (if |projects| < 3 then |projects| else 3)
                && Distinct(mine)
      {
        ExpandAssignmentsOf(people, projects, picks, i);
        RowDistinct(people[i], projects, picks[i]);
      }
    }
  }

  /** One person's row has no repeated pair when the project ids are distinct. */
  lemma RowDistinct(person: Person, projects: seq<Project>, pick: seq<nat>)
    requires IsSample(pick, |projects|) && Distinct(ProjectIds(projects))
    ensures Distinct(PersonRow(person, projects, pick))
  {
    var row := PersonRow(person, projects, pick);
    forall a, b | 0 <= a < b < |row| ensures row[a] != row[b] {
      assert ProjectIds(projects)[pick[a]] != ProjectIds(projects)[pick[b]];
    }
  }
}
