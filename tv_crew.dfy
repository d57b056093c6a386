/** The crew section of a TV show page: people grouped by department with
    repeated credits removed, departments ranked by a fixed priority list,
    four departments and six people per department shown. */
module TvCrew {
  import opened Common
  import opened Text
  import opened Credits
  import opened Sorting

  /** Two credits name the same person in the same job. */
  predicate SameCredit(p: Crew, q: Crew)
  {
    p.id == q.id && p.job == q.job
  }

  /** `xs.some(p => p.id === q.id && p.job === q.job)`. */
  predicate HasCredit(xs: seq<Crew>, q: Crew)
  {
    exists i | 0 <= i < |xs| :: SameCredit(xs[i], q)
  }

  /** No two entries share both id and job. */
  predicate UniqueCredits(xs: seq<Crew>)
  {
    forall i, j | 0 <= i < j < |xs| :: !SameCredit(xs[i], xs[j])
  }

  /** `xs[i]` is the first entry with its id and job. */
  predicate FirstOccurrence(xs: seq<Crew>, i: int)
    requires 0 <= i < |xs|
  {
    forall k | 0 <= k < i :: !SameCredit(xs[k], xs[i])
  }

  /** The entries of `xs` in order, each (id, job) pair kept only where it
      first occurs: what pushing every person not yet present leaves. */
  function Dedup(xs: seq<Crew>): seq<Crew>
  {
    if xs == [] then []
    else
      var r := Dedup(xs[..|xs| - 1]);
      var p := xs[|xs| - 1];
      if HasCredit(r, p) then r else r + [p]
  }

  /** `q` is the first entry of `xs` with its id and job. */
  predicate IsFirstOccurrence(xs: seq<Crew>, q: Crew)
  {
    exists i | 0 <= i < |xs| :: FirstOccurrence(xs, i) && xs[i] == q
  }

  /** Removing repeated credits keeps one entry per (id, job) pair: no two
      kept entries share both, only input entries are kept, and every input
      credit is represented. A person with a second job in the same
      department is therefore kept. */
  lemma {:induction false} DedupUnique(xs: seq<Crew>)
    ensures UniqueCredits(Dedup(xs))
    ensures forall q | q in Dedup(xs) :: q in xs
    ensures forall q | q in xs :: HasCredit(Dedup(xs), q)
  {
    if xs != [] {
      var pre := xs[..|xs| - 1];
      var p := xs[|xs| - 1];
      var r := Dedup(pre);
      DedupUnique(pre);
      assert xs == pre + [p];
      forall q | q in xs ensures HasCredit(Dedup(xs), q) {
        if q in pre {
          var j :| 0 <= j < |r| && SameCredit(r[j], q);
          assert Dedup(xs)[j] == r[j];
        } else if !HasCredit(r, p) {
          assert Dedup(xs)[|r|] == p;
        }
      }
    }
  }

  /** The entry kept for each (id, job) pair is its first occurrence: every
      first occurrence is kept, and every kept entry is one. */
  lemma {:induction false} DedupKeepsFirsts(xs: seq<Crew>)
    ensures forall i | 0 <= i < |xs| && FirstOccurrence(xs, i) :: xs[i] in Dedup(xs)
    ensures forall j | 0 <= j < |Dedup(xs)| :: IsFirstOccurrence(xs, Dedup(xs)[j])
  {
    if xs != [] {
      var pre := xs[..|xs| - 1];
      var p := xs[|xs| - 1];
      var r := Dedup(pre);
      DedupKeepsFirsts(pre);
      DedupUnique(pre);
      assert xs == pre + [p];
      forall i | 0 <= i < |pre| ensures FirstOccurrence(xs, i) <==> FirstOccurrence(pre, i) {
        assert forall k | 0 <= k <= i :: xs[k] == pre[k];
      }
      if !HasCredit(r, p) {
        forall k | 0 <= k < |xs| - 1 ensures !SameCredit(xs[k], p) {
          assert xs[k] in pre;
        }
        assert FirstOccurrence(xs, |xs| - 1);
      }
      forall j | 0 <= j < |Dedup(xs)| ensures IsFirstOccurrence(xs, Dedup(xs)[j]) {
        if j < |r| {
          var i :| 0 <= i < |pre| && FirstOccurrence(pre, i) && pre[i] == r[j];
          assert Dedup(xs)[j] == r[j];
          assert xs[i] == pre[i];
        } else {
          assert !HasCredit(r, p) && Dedup(xs) == r + [p];
          assert xs[|xs| - 1] == Dedup(xs)[j];
          assert FirstOccurrence(xs, |xs| - 1);
        }
      }
      forall i | 0 <= i < |xs| && FirstOccurrence(xs, i) ensures xs[i] in Dedup(xs) {
        if i < |pre| {
          assert xs[i] == pre[i];
        }
      }
    }
  }

  /** The departments of `crew` in order of first appearance: the key order of
      the `Map` the section fills. */
  function Departments(crew: seq<Crew>): seq<string>
  {
    if crew == [] then []
    else
      var ds := Departments(crew[..|crew| - 1]);
      var d := crew[|crew| - 1].department;
      if d in ds then ds else ds + [d]
  }

  /** Every department of the input becomes a key, exactly once. */
  lemma {:induction false} DepartmentsAreKeys(crew: seq<Crew>)
    ensures forall d :: d in Departments(crew) <==> HasDepartment(crew, d)
    ensures Distinct(Departments(crew))
  {
    if crew != [] {
      var pre := crew[..|crew| - 1];
      DepartmentsAreKeys(pre);
      forall d ensures HasDepartment(crew, d) <==> HasDepartment(pre, d) || d == crew[|crew| - 1].department {
        if HasDepartment(pre, d) {
          var i :| 0 <= i < |pre| && pre[i].department == d;
          assert crew[i] == pre[i];
        }
        if HasDepartment(crew, d) && d != crew[|crew| - 1].department {
          var i :| 0 <= i < |crew| && crew[i].department == d;
          assert pre[i] == crew[i];
        }
      }
    }
  }

  /** One more person joins their own department's group, unless it already
      holds the same credit, and leaves every other group alone. */
  lemma GroupSnoc(prefix: seq<Crew>, person: Crew, d: string)
    ensures var group := Dedup(InDepartment(prefix, d));
      Dedup(InDepartment(prefix + [person], d)) ==
        if d != person.department || HasCredit(group, person) then group else group + [person]
  {
    DepartmentSnoc(prefix, person, d);
    if d == person.department {
      var xs := InDepartment(prefix, d);
      assert (xs + [person])[..|xs|] == xs;
    }
  }

  /** The `forEach` of lines 11-27: for each person, create the department's
      group if it is missing, then push the person unless the group already
      holds the same id with the same job. Returns the map's keys in insertion
      order and its groups. */
  method GroupByDepartment(crew: seq<Crew>) returns (keys: seq<string>, groups: map<string, seq<Crew>>)
    ensures keys == Departments(crew)
    ensures forall d :: d in groups <==> HasDepartment(crew, d)
    ensures forall d | d in groups :: groups[d] == Dedup(InDepartment(crew, d))
  {
    keys := [];
    groups := map[];
    var i := 0;
    while i < |crew|
      invariant 0 <= i <= |crew|
      invariant keys == Departments(crew[..i])
      invariant forall d :: d in groups <==> d in keys
      invariant forall d | d in groups :: groups[d] == Dedup(InDepartment(crew[..i], d))
    {
      var person := crew[i];
      assert crew[..i + 1] == crew[..i] + [person];
      assert crew[..i + 1][..i] == crew[..i];
      if person.department !in groups {
        DepartmentsAreKeys(crew[..i]);
        InDepartmentEmpty(crew[..i], person.department);
        groups := groups[person.department := []];
        keys := keys + [person.department];
      }
      var departmentCrew := groups[person.department];
      var found := HasCredit(departmentCrew, person);
      if !found {
        groups := groups[person.department := departmentCrew + [person]];
      }
      forall d | d in groups ensures groups[d] == Dedup(InDepartment(crew[..i + 1], d)) {
        GroupSnoc(crew[..i], person, d);
      }
      i := i + 1;
    }
    assert crew[..i] == crew;
    DepartmentsAreKeys(crew);
  }

  /** The department priority list of lines 34-44. */
  const DepartmentOrder: seq<string> :=
    ["Production", "Directing", "Writing", "Sound", "Camera", "Editing", "Art",
     "Costume & Make-Up", "Visual Effects"]

  /** The comparator of the department sort, lines 32-57: listed departments
      by their position, listed before unlisted, unlisted by string order. */
  function CompareDepartments(a: string, b: string): int
  {
    CompareByPriority(DepartmentOrder, a, b)
  }

  /** Ranking by a priority list: by position in `order` when both are
      listed, listed before unlisted, unlisted by string order. */
  function CompareByPriority(order: seq<string>, a: string, b: string): int
  {
    var ia := IndexOf(order, a);
    var ib := IndexOf(order, b);
    if ia != -1 && ib != -1 then ia - ib
    else if ia != -1 then -1
    else if ib != -1 then 1
    else LocaleCompare(a, b)
  }

  predicate RanksBefore(a: string, b: string)
  {
    CompareDepartments(a, b) < 0
  }

  /** The department comparator is consistent: it is zero only on equal
      names, flips sign with its arguments, and ranks transitively. So the
      department order is a strict total order and the sort is well defined,
      whatever order the departments were met in. */
  lemma DepartmentRankingConsistent(a: string, b: string, c: string)
    ensures CompareDepartments(a, b) == 0 <==> a == b
    ensures RanksBefore(a, b) <==> CompareDepartments(b, a) > 0
    ensures a != b ==> RanksBefore(a, b) || RanksBefore(b, a)
    ensures RanksBefore(a, b) && RanksBefore(b, c) ==> RanksBefore(a, c)
  {
    PriorityRankingConsistent(DepartmentOrder, a, b, c);
  }

  /** Any priority list gives a consistent comparator. */
  lemma PriorityRankingConsistent(order: seq<string>, a: string, b: string, c: string)
    ensures CompareByPriority(order, a, b) == 0 <==> a == b
    ensures CompareByPriority(order, a, b) < 0 <==> CompareByPriority(order, b, a) > 0
    ensures a != b ==> CompareByPriority(order, a, b) < 0 || CompareByPriority(order, b, a) < 0
    ensures CompareByPriority(order, a, b) < 0 && CompareByPriority(order, b, c) < 0 ==>
      CompareByPriority(order, a, c) < 0
  {
    LocaleCompareConsistent(a, b);
    if CompareByPriority(order, a, b) < 0 && CompareByPriority(order, b, c) < 0 && IndexOf(order, a) == -1 {
      LexLessTransitive(a, b, c);
    }
  }

  /** Listed departments come before all others and keep the list's order;
      the others follow in string order. */
  lemma PriorityDepartmentsFirst(a: string, b: string)
    ensures a in DepartmentOrder && b !in DepartmentOrder ==> RanksBefore(a, b)
    ensures a in DepartmentOrder && b in DepartmentOrder ==>
      (RanksBefore(a, b) <==> IndexOf(DepartmentOrder, a) < IndexOf(DepartmentOrder, b))
    ensures a !in DepartmentOrder && b !in DepartmentOrder ==> (RanksBefore(a, b) <==> LexLess(a, b))
  {
  }

  lemma DepartmentRankingIsOrder()
    ensures StrictWeakOrder(RanksBefore)
    ensures forall a, b | a != b :: RanksBefore(a, b) || RanksBefore(b, a)
  {
    forall a, b, c ensures
      (RanksBefore(a, b) ==> !RanksBefore(b, a)) &&
      (!RanksBefore(a, b) && !RanksBefore(b, c) ==> !RanksBefore(a, c)) &&
      (a != b ==> RanksBefore(a, b) || RanksBefore(b, a))
    {
      DepartmentRankingConsistent(a, b, c);
      DepartmentRankingConsistent(b, a, c);
      DepartmentRankingConsistent(c, b, a);
      DepartmentRankingConsistent(b, c, a);
      DepartmentRankingConsistent(a, c, b);
    }
  }

  /** `a.job.localeCompare(b.job) < 0`: the order of people within a department. */
  predicate JobBefore(p: Crew, q: Crew)
  {
    LocaleCompare(p.job, q.job) < 0
  }

  lemma JobOrderIsWeakOrder()
    ensures StrictWeakOrder(JobBefore)
  {
    forall p: Crew, q: Crew, r: Crew ensures
      (JobBefore(p, q) ==> !JobBefore(q, p)) &&
      (!JobBefore(p, q) && !JobBefore(q, r) ==> !JobBefore(p, r))
    {
      LocaleCompareConsistent(p.job, q.job);
      LocaleCompareConsistent(q.job, r.job);
      LocaleCompareConsistent(p.job, r.job);
      if JobBefore(p, r) && !JobBefore(p, q) && !JobBefore(q, r) {
        LexLessTransitive(r.job, q.job, p.job);
        LexLessAsymmetric(p.job, r.job);
      }
    }
  }

  /** A permutation of distinct elements is distinct. */
  lemma DistinctPermutation<T>(a: seq<T>, b: seq<T>)
    requires Distinct(a) && multiset(a) == multiset(b)
    ensures Distinct(b)
  {
    forall i, j | 0 <= i < j < |b| ensures b[i] != b[j] {
      if b[i] == b[j] {
        var x := b[i];
        assert b == b[..j] + b[j..];
        assert x in b[..j] && x in b[j..];
        assert multiset(b)[x] >= 2 by {
          assert multiset(b) == multiset(b[..j]) + multiset(b[j..]);
        }
        DistinctCount(a, x);
        assert false;
      }
    }
  }

  lemma {:induction false} DistinctCount<T>(a: seq<T>, x: T)
    requires Distinct(a)
    ensures multiset(a)[x] <= 1
  {
    if a != [] {
      var pre := a[..|a| - 1];
      assert a == pre + [a[|a| - 1]];
      DistinctCount(pre, x);
      if x == a[|a| - 1] {
        assert x !in pre;
      }
    }
  }

  /** Sorting distinct department names by rank and keeping the first `n`
      gives `n` names in strictly increasing rank, each ranked before every
      name left out. */
  lemma RankedPrefix(keys: seq<string>, n: nat)
    requires Distinct(keys)
    requires n <= |keys|
    ensures |Sort(keys, RanksBefore)| == |keys|
    ensures forall i | 0 <= i < |keys| :: Sort(keys, RanksBefore)[i] in keys
    ensures forall i, j | 0 <= i < j < n :: RanksBefore(Sort(keys, RanksBefore)[i], Sort(keys, RanksBefore)[j])
    ensures forall d | d in keys && d !in Sort(keys, RanksBefore)[..n] ::
      forall i | 0 <= i < n :: RanksBefore(Sort(keys, RanksBefore)[i], d)
  {
    var sorted := Sort(keys, RanksBefore);
    SortPermutes(keys, RanksBefore);
    DepartmentRankingIsOrder();
    SortSorted(keys, RanksBefore);
    DistinctPermutation(keys, sorted);
    forall i | 0 <= i < |keys| ensures sorted[i] in keys {
      assert sorted[i] in multiset(sorted);
    }
    forall d | d in keys && d !in sorted[..n] ensures forall i | 0 <= i < n :: RanksBefore(sorted[i], d) {
      assert d in multiset(keys);
      SortedPrefixFirst(sorted, RanksBefore, n, d);
    }
  }

  /** The first departments of the ranking are present in the crew, in
      strictly increasing rank, and rank before every department left out. */
  lemma ShownDepartments(crew: seq<Crew>, shown: seq<DepartmentView>)
    requires |shown| == Min(4, |Departments(crew)|)
    requires forall i | 0 <= i < |shown| :: shown[i].department == Sort(Departments(crew), RanksBefore)[i]
    ensures forall i | 0 <= i < |shown| :: HasDepartment(crew, shown[i].department)
    ensures forall i, j | 0 <= i < j < |shown| :: RanksBefore(shown[i].department, shown[j].department)
    ensures forall d | HasDepartment(crew, d) && (forall i | 0 <= i < |shown| :: shown[i].department != d) ::
      forall i | 0 <= i < |shown| :: RanksBefore(shown[i].department, d)
  {
    var keys := Departments(crew);
    var sorted := Sort(keys, RanksBefore);
    DepartmentsAreKeys(crew);
    RankedPrefix(keys, |shown|);
    forall d | HasDepartment(crew, d) && (forall i | 0 <= i < |shown| :: shown[i].department != d)
      ensures d in keys && d !in sorted[..|shown|]
    {
    }
  }

  /** How one shown department lists its people: the group without repeated
      credits, sorted by job, cut to its first six; never empty. */
  ghost predicate ShowsGroup(crew: seq<Crew>, v: DepartmentView)
  {
    var group := Dedup(InDepartment(crew, v.department));
    group != [] &&
    v.people == Take(Sort(group, JobBefore), 6) &&
    Sorted(v.people, JobBefore) &&
    UniqueCredits(v.people) &&
    (forall p | p in v.people :: p in crew && p.department == v.department)
  }

  lemma ShownGroup(crew: seq<Crew>, d: string)
    requires HasDepartment(crew, d)
    ensures ShowsGroup(crew, DepartmentView(d, Take(Sort(Dedup(InDepartment(crew, d)), JobBefore), 6)))
  {
    var members := InDepartment(crew, d);
    DedupUnique(members);
    InDepartmentEmpty(crew, d);
    assert members[0] in members;
    assert HasCredit(Dedup(members), members[0]);
    FirstSixByJob(Dedup(members));
  }

  /** The first six of a group of unique credits sorted by job are in job
      order, unique, and drawn from the group. */
  lemma FirstSixByJob(group: seq<Crew>)
    requires UniqueCredits(group)
    ensures var t := Take(Sort(group, JobBefore), 6);
      Sorted(t, JobBefore) && UniqueCredits(t) && forall p | p in t :: p in group
  {
    JobOrderIsWeakOrder();
    SortSorted(group, JobBefore);
    SortPermutes(group, JobBefore);
    var s := Sort(group, JobBefore);
    var t := Take(s, 6);
    forall x | x in t ensures x in group {
      assert x in multiset(s);
    }
    UniqueAfterPermutation(group, s);
  }

  /** Reordering keeps credits unique. */
  lemma UniqueAfterPermutation(a: seq<Crew>, b: seq<Crew>)
    requires UniqueCredits(a) && multiset(a) == multiset(b)
    ensures UniqueCredits(b)
  {
    forall i, j | 0 <= i < j < |b| ensures !SameCredit(b[i], b[j]) {
      if SameCredit(b[i], b[j]) {
        assert b[i] in multiset(a) && b[j] in multiset(a);
        var k :| 0 <= k < |a| && a[k] == b[i];
        var m :| 0 <= m < |a| && a[m] == b[j];
        if k == m {
          assert b[i] == b[j];
          assert b == b[..j] + b[j..];
          assert multiset(b)[b[i]] >= 2 by {
            assert multiset(b) == multiset(b[..j]) + multiset(b[j..]);
            assert b[i] in b[..j] && b[j] in b[j..];
          }
          UniqueCount(a, b[i]);
          assert false;
        }
      }
    }
  }

  lemma {:induction false} UniqueCount(a: seq<Crew>, x: Crew)
    requires UniqueCredits(a)
    ensures multiset(a)[x] <= 1
  {
    if a != [] {
      var pre := a[..|a| - 1];
      assert a == pre + [a[|a| - 1]];
      UniqueCount(pre, x);
      if x == a[|a| - 1] {
        assert x !in pre;
      }
    }
  }

  /** The view of one department: its first six people by job. */
  function DepartmentViewOf(groups: map<string, seq<Crew>>, d: string): DepartmentView
    requires d in groups
  {
    DepartmentView(d, Take(Sort(groups[d], JobBefore), 6))
  }

  /** The whole section: group the crew, sort the departments by rank, keep
      the first four, and in each show the first six people by job. The
      shown departments are exactly the four best ranked ones present. */
  method CrewSection(crew: seq<Crew>) returns (shown: seq<DepartmentView>)
    ensures |shown| == Min(4, |Departments(crew)|)
    ensures forall i | 0 <= i < |shown| :: HasDepartment(crew, shown[i].department)
    ensures forall i, j | 0 <= i < j < |shown| :: RanksBefore(shown[i].department, shown[j].department)
    ensures forall d | HasDepartment(crew, d) && (forall i | 0 <= i < |shown| :: shown[i].department != d) ::
      forall i | 0 <= i < |shown| :: RanksBefore(shown[i].department, d)
    ensures forall i | 0 <= i < |shown| :: ShowsGroup(crew, shown[i])
  {
    var keys, groups := GroupByDepartment(crew);
    var important := Take(Sort(keys, RanksBefore), 4);
    ImportantAreGroups(crew, keys, groups, important);
    shown := seq(|important|, i requires 0 <= i < |important| => DepartmentViewOf(groups, important[i]));
    SectionShown(crew, groups, important, shown);
  }

  /** The four best ranked keys are departments of the crew with groups. */
  lemma ImportantAreGroups(crew: seq<Crew>, keys: seq<string>, groups: map<string, seq<Crew>>, important: seq<string>)
    requires keys == Departments(crew)
    requires forall d :: d in groups <==> HasDepartment(crew, d)
    requires important == Take(Sort(keys, RanksBefore), 4)
    ensures |important| == Min(4, |keys|)
    ensures forall i | 0 <= i < |important| :: important[i] in groups
  {
    SortPermutes(keys, RanksBefore);
    DepartmentsAreKeys(crew);
    forall i | 0 <= i < |important| ensures important[i] in groups {
      assert important[i] in multiset(Sort(keys, RanksBefore));
    }
  }

  /** The departments shown, with their views, meet the section's promises. */
  lemma SectionShown(crew: seq<Crew>, groups: map<string, seq<Crew>>, important: seq<string>, shown: seq<DepartmentView>)
    requires forall d :: d in groups <==> HasDepartment(crew, d)
    requires forall d | d in groups :: groups[d] == Dedup(InDepartment(crew, d))
    requires important == Take(Sort(Departments(crew), RanksBefore), 4)
    requires forall i | 0 <= i < |important| :: important[i] in groups
    requires |shown| == |important|
    requires forall i | 0 <= i < |shown| :: shown[i] == DepartmentViewOf(groups, important[i])
    ensures |shown| == Min(4, |Departments(crew)|)
    ensures forall i | 0 <= i < |shown| :: HasDepartment(crew, shown[i].department)
    ensures forall i, j | 0 <= i < j < |shown| :: RanksBefore(shown[i].department, shown[j].department)
    ensures forall d | HasDepartment(crew, d) && (forall i | 0 <= i < |shown| :: shown[i].department != d) ::
      forall i | 0 <= i < |shown| :: RanksBefore(shown[i].department, d)
    ensures forall i | 0 <= i < |shown| :: ShowsGroup(crew, shown[i])
  {
    ShownDepartments(crew, shown);
    forall i | 0 <= i < |shown| ensures ShowsGroup(crew, shown[i]) {
      ShownGroup(crew, important[i]);
    }
  }
}
