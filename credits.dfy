/** The crew member record of a credits response, as both crew sections use
    it. */
module Credits {

  /** A crew credit: one person in one job of one department. */
  datatype Crew = Crew(id: int, name: string, job: string, department: string)

  /** A department as a crew section shows it: its name and the people
      listed under it. */
  datatype DepartmentView = DepartmentView(department: string, people: seq<Crew>)

  /** `crew.filter(p => p.department === d)`: the people of one department in
      input order. */
  function InDepartment(crew: seq<Crew>, d: string): (r: seq<Crew>)
    ensures |r| <= |crew|
    ensures forall i | 0 <= i < |r| :: r[i].department == d && r[i] in crew
    ensures forall p | p in crew && p.department == d :: p in r
  {
    if crew == [] then []
    else
      var r := InDepartment(crew[..|crew| - 1], d);
      var p := crew[|crew| - 1];
      assert crew == crew[..|crew| - 1] + [p];
      if p.department == d then r + [p] else r
  }

  /** Whether some crew member occurs in department `d`. */
  predicate HasDepartment(crew: seq<Crew>, d: string)
  {
    exists i | 0 <= i < |crew| :: crew[i].department == d
  }

  lemma InDepartmentEmpty(crew: seq<Crew>, d: string)
    ensures InDepartment(crew, d) == [] <==> !HasDepartment(crew, d)
  {
    if HasDepartment(crew, d) {
      var i :| 0 <= i < |crew| && crew[i].department == d;
      assert crew[i] in InDepartment(crew, d);
    }
  }

  /** One more person adds to their own department only. */
  lemma DepartmentSnoc(prefix: seq<Crew>, person: Crew, d: string)
    ensures InDepartment(prefix + [person], d) ==
      if person.department == d then InDepartment(prefix, d) + [person] else InDepartment(prefix, d)
    ensures HasDepartment(prefix + [person], d) <==> HasDepartment(prefix, d) || person.department == d
  {
    var crew := prefix + [person];
    assert crew[..|crew| - 1] == prefix;
    if HasDepartment(prefix, d) {
      var i :| 0 <= i < |prefix| && prefix[i].department == d;
      assert crew[i] == prefix[i];
    }
    if HasDepartment(crew, d) && person.department != d {
      var i :| 0 <= i < |crew| && crew[i].department == d;
      assert prefix[i] == crew[i];
    }
    if person.department == d {
      assert crew[|prefix|] == person;
    }
  }
}
