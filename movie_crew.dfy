/** The crew section of a movie page: people grouped by department without
    removing repeats, and only five fixed departments shown, three people
    each. */
module MovieCrew {
  import opened Common
  import opened Credits

  /** The departments the section shows, in display order (lines 17-23). */
  const ImportantDepartments: seq<string> := ["Directing", "Writing", "Production", "Sound", "Camera"]

  /** People shown per department (line 56). */
  const PeoplePerDepartment: nat := 3

  /** The `reduce` of lines 8-15: create a department's list when it is
      missing, then append the person to it. */
  method GroupByDepartment(crew: seq<Crew>) returns (departments: map<string, seq<Crew>>)
    ensures forall d :: d in departments <==> HasDepartment(crew, d)
    ensures forall d | d in departments :: departments[d] == InDepartment(crew, d)
  {
    departments := map[];
    var i := 0;
    while i < |crew|
      invariant 0 <= i <= |crew|
      invariant forall d :: d in departments <==> HasDepartment(crew[..i], d)
      invariant forall d | d in departments :: departments[d] == InDepartment(crew[..i], d)
    {
      var person := crew[i];
      var dept := person.department;
      assert crew[..i + 1] == crew[..i] + [person];
      if dept !in departments {
        InDepartmentEmpty(crew[..i], dept);
        departments := departments[dept := []];
      }
      departments := departments[dept := departments[dept] + [person]];
      forall d ensures (d in departments <==> HasDepartment(crew[..i + 1], d))
        && (d in departments ==> departments[d] == InDepartment(crew[..i + 1], d))
      {
        DepartmentSnoc(crew[..i], person, d);
      }
      i := i + 1;
    }
    assert crew[..i] == crew;
  }

  /** The departments of `ds` that have people, each with its first three
      people: `ds.map(...)` where an absent or empty department renders
      nothing. */
  function Select(departments: map<string, seq<Crew>>, ds: seq<string>): seq<DepartmentView>
  {
    if ds == [] then []
    else
      var d := ds[0];
      (if d in departments && departments[d] != []
       then [DepartmentView(d, Take(departments[d], PeoplePerDepartment))]
       else [])
      + Select(departments, ds[1..])
  }

  /** Every selected department comes from `ds` and has people; it shows
      its first three. */
  lemma {:induction false} SelectShape(departments: map<string, seq<Crew>>, ds: seq<string>)
    ensures forall i | 0 <= i < |Select(departments, ds)| ::
      var v := Select(departments, ds)[i];
      v.department in ds && v.department in departments &&
      v.people == Take(departments[v.department], PeoplePerDepartment) && v.people != []
  {
    if ds != [] {
      SelectShape(departments, ds[1..]);
      var rest := Select(departments, ds[1..]);
      var s := Select(departments, ds);
      var h := |s| - |rest|;
      assert s == s[..h] + rest;
      forall i | h <= i < |s| ensures s[i] == rest[i - h] {
      }
    }
  }

  /** Selection keeps the order of `ds`. */
  lemma {:induction false} SelectOrdered(departments: map<string, seq<Crew>>, ds: seq<string>)
    requires Distinct(ds)
    ensures forall i, j | 0 <= i < j < |Select(departments, ds)| ::
      IndexOf(ds, Select(departments, ds)[i].department) < IndexOf(ds, Select(departments, ds)[j].department)
  {
    if ds != [] {
      var rest := Select(departments, ds[1..]);
      var s := Select(departments, ds);
      var h := |s| - |rest|;
      assert Distinct(ds[1..]) by {
        forall i, j | 0 <= i < j < |ds[1..]| ensures ds[1..][i] != ds[1..][j] {
          assert ds[1..][i] == ds[i + 1] && ds[1..][j] == ds[j + 1];
        }
      }
      SelectOrdered(departments, ds[1..]);
      SelectShape(departments, ds[1..]);
      SelectShape(departments, ds);
      assert ds[0] !in ds[1..] by {
        forall k | 0 <= k < |ds[1..]| ensures ds[1..][k] != ds[0] {
          assert ds[1..][k] == ds[k + 1];
        }
      }
      forall j | h <= j < |s| ensures s[j] == rest[j - h] && IndexOf(ds, s[j].department) == IndexOf(ds[1..], s[j].department) + 1 {
        assert s[j] == rest[j - h];
      }
    }
  }

  /** A department of `ds` is selected iff it has people. */
  lemma {:induction false} SelectShowsNonEmpty(departments: map<string, seq<Crew>>, ds: seq<string>, d: string)
    requires d in ds
    ensures (exists i | 0 <= i < |Select(departments, ds)| :: Select(departments, ds)[i].department == d)
      <==> d in departments && departments[d] != []
  {
    var rest := Select(departments, ds[1..]);
    var s := Select(departments, ds);
    var h := |s| - |rest|;
    assert forall i | h <= i < |s| :: s[i] == rest[i - h];
    SelectShape(departments, ds);
    if d != ds[0] || !(d in departments && departments[d] != []) {
      if d in ds[1..] {
        SelectShowsNonEmpty(departments, ds[1..], d);
        if d in departments && departments[d] != [] {
          var i :| 0 <= i < |rest| && rest[i].department == d;
          assert s[i + h].department == d;
          assert exists j | 0 <= j < |Select(departments, ds)| :: Select(departments, ds)[j].department == d;
        }
      } else {
        assert d == ds[0];
        SelectShape(departments, ds[1..]);
      }
    } else {
      assert s == [DepartmentView(d, Take(departments[d], PeoplePerDepartment))] + rest;
      assert 0 < |s| && s[0].department == d;
      assert exists i | 0 <= i < |Select(departments, ds)| :: Select(departments, ds)[i].department == d;
    }
  }

  /** Every person is appended to their department's list, however often
      they occur: the grouping removes nothing. */
  lemma {:induction false} NoDeduplication(crew: seq<Crew>, p: Crew)
    ensures multiset(InDepartment(crew, p.department))[p] == multiset(crew)[p]
  {
    if crew != [] {
      var pre := crew[..|crew| - 1];
      assert crew == pre + [crew[|crew| - 1]];
      NoDeduplication(pre, p);
    }
  }

  /** The whole section: only Directing, Writing, Production, Sound and
      Camera are ever shown, in that order; one of them is shown iff someone
      works in it, with its first three people in input order. */
  method CrewSection(crew: seq<Crew>) returns (shown: seq<DepartmentView>)
    ensures forall i | 0 <= i < |shown| :: shown[i].department in ImportantDepartments
    ensures forall i, j | 0 <= i < j < |shown| ::
      IndexOf(ImportantDepartments, shown[i].department) < IndexOf(ImportantDepartments, shown[j].department)
    ensures forall d | d in ImportantDepartments ::
      (exists i | 0 <= i < |shown| :: shown[i].department == d) <==> HasDepartment(crew, d)
    ensures forall i | 0 <= i < |shown| ::
      shown[i].people == Take(InDepartment(crew, shown[i].department), PeoplePerDepartment) && shown[i].people != []
  {
    var departments := GroupByDepartment(crew);
    shown := Select(departments, ImportantDepartments);
    SelectShape(departments, ImportantDepartments);
    SelectOrdered(departments, ImportantDepartments);
    forall d | d in ImportantDepartments
      ensures (exists i | 0 <= i < |shown| :: shown[i].department == d) <==> HasDepartment(crew, d)
    {
      SelectShowsNonEmpty(departments, ImportantDepartments, d);
      InDepartmentEmpty(crew, d);
    }
  }

  /** A director in Directing and a screenwriter in Writing: the section shows
      Directing with the director, then Writing with the writer. */
  lemma DirectorAndWriterShown()
    ensures
      var director := Crew(1, "Director", "Director", "Directing");
      var writer := Crew(2, "Writer", "Screenplay", "Writing");
      var departments := map["Directing" := [director], "Writing" := [writer]];
      Select(departments, ImportantDepartments) ==
        [DepartmentView("Directing", [director]), DepartmentView("Writing", [writer])]
  {
    var director := Crew(1, "Director", "Director", "Directing");
    var writer := Crew(2, "Writer", "Screenplay", "Writing");
    var departments := map["Directing" := [director], "Writing" := [writer]];
    var ds := ImportantDepartments;
    assert Select(departments, ds[4..]) == [];
    assert Select(departments, ds[3..]) == [] by { assert ds[3..][1..] == ds[4..]; }
    assert Select(departments, ds[2..]) == [] by { assert ds[2..][1..] == ds[3..]; }
    assert Select(departments, ds[1..]) == [DepartmentView("Writing", [writer])] by { assert ds[1..][1..] == ds[2..]; }
  }
}
