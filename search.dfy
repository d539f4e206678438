/** The page's two search filters (`students.filter(...)` and
    `assignments.filter(...)`): drop `null` entries and keep those where the
    lower-cased query occurs in some lower-cased search field. */
module Search {
  import opened Wrappers
  import opened Text
  import opened Records

  /** `a` is `b` with some entries removed and the rest in their order. */
  ghost predicate IsSubsequence<T>(a: seq<T>, b: seq<T>)
    decreases |b|
  {
    if a == [] then true
    else if b == [] then false
    else (a[0] == b[0] && IsSubsequence(a[1..], b[1..])) || IsSubsequence(a, b[1..])
  }

  /** `xs.filter(x => x && keep(x))`. */
  function KeepWhere<T>(xs: seq<Option<T>>, keep: T -> bool): (r: seq<Option<T>>)
    ensures forall i | 0 <= i < |r| :: r[i].Some? && keep(r[i].value)
    ensures IsSubsequence(r, xs)
    decreases |xs|
  {
    if xs == [] then []
    else
      var rest := KeepWhere(xs[1..], keep);
      if xs[0].Some? && keep(xs[0].value) then [xs[0]] + rest else rest
  }

  /** The filter keeps each passing entry exactly as often as it occurs, and
      drops every other entry. */
  lemma {:induction false} KeepWhereCount<T>(xs: seq<Option<T>>, keep: T -> bool, x: Option<T>)
    ensures multiset(KeepWhere(xs, keep))[x] == if x.Some? && keep(x.value) then multiset(xs)[x] else 0
    decreases |xs|
  {
    if xs != [] {
      KeepWhereCount(xs[1..], keep, x);
      assert xs == [xs[0]] + xs[1..];
    }
  }

  /** Every passing entry of the input is in the filter's result. */
  lemma {:induction false} KeepWhereKeeps<T>(xs: seq<Option<T>>, keep: T -> bool, i: nat)
    requires i < |xs| && xs[i].Some? && keep(xs[i].value)
    ensures xs[i] in KeepWhere(xs, keep)
    decreases i
  {
    if i > 0 {
      KeepWhereKeeps(xs[1..], keep, i - 1);
    }
  }

  /** `xs` without its `null` entries. */
  function NonNull<T>(xs: seq<Option<T>>): (r: seq<Option<T>>)
    ensures (forall i | 0 <= i < |xs| :: xs[i].Some?) ==> r == xs
    ensures forall i | 0 <= i < |r| :: r[i].Some?
    ensures IsSubsequence(r, xs)
  {
    if xs == [] then []
    else if xs[0].Some? then [xs[0]] + NonNull(xs[1..])
    else NonNull(xs[1..])
  }

  /** `NonNull` keeps each non-null entry exactly as often as it occurs. */
  lemma {:induction false} NonNullCount<T>(xs: seq<Option<T>>, x: Option<T>)
    ensures multiset(NonNull(xs))[x] == if x.Some? then multiset(xs)[x] else 0
    decreases |xs|
  {
    if xs != [] {
      NonNullCount(xs[1..], x);
      assert xs == [xs[0]] + xs[1..];
    }
  }

  /** A filter every value passes only drops the `null` entries. */
  lemma {:induction false} KeepWhereAllPass<T>(xs: seq<Option<T>>, keep: T -> bool)
    requires forall v :: keep(v)
    ensures KeepWhere(xs, keep) == NonNull(xs)
    decreases |xs|
  {
    if xs != [] {
      KeepWhereAllPass(xs[1..], keep);
    }
  }

  /** A list whose entries all pass the filter comes through it unchanged. */
  lemma {:induction false} KeepWhereKeepsAll<T(!new)>(ys: seq<Option<T>>, keep: T -> bool)
    requires forall i | 0 <= i < |ys| :: ys[i].Some? && keep(ys[i].value)
    ensures KeepWhere(ys, keep) == ys
    decreases |ys|
  {
    if ys != [] {
      KeepWhereKeepsAll(ys[1..], keep);
    }
  }

  /** `field?.toLowerCase() || ''`. */
  function FieldText(field: Option<string>): (r: string)
    ensures field.None? ==> r == ""
    ensures field.Some? ==> r == Lower(field.value)
  {
    Lower(field.GetOr(""))
  }

  /** The specification of a match: the lower-cased query occurs in the
      lower-cased text of at least one field, a missing field reading as "". */
  ghost predicate AnyFieldContains(fields: seq<Option<string>>, query: string) {
    exists k | 0 <= k < |fields| :: IsSubstring(Lower(query), FieldText(fields[k]))
  }

  function StudentFields(s: Student): seq<Option<string>> {
    [s.name, s.email, s.phone, s.leetcodeUsername, s.codechefUsername]
  }

  function AssignmentFields(a: Assignment): seq<Option<string>> {
    [a.title, a.description, a.difficulty]
  }

  /** The body of the student filter's callback, for a non-null student. */
  function StudentMatches(s: Student, query: string): (r: bool)
    ensures r <==> AnyFieldContains(StudentFields(s), query)
  {
    var q := Lower(query);
    var fields := StudentFields(s);
    assert fields[0] == s.name && fields[1] == s.email && fields[2] == s.phone;
    assert fields[3] == s.leetcodeUsername && fields[4] == s.codechefUsername;
    Includes(FieldText(s.name), q)
    || Includes(FieldText(s.email), q)
    || Includes(FieldText(s.phone), q)
    || Includes(FieldText(s.leetcodeUsername), q)
    || Includes(FieldText(s.codechefUsername), q)
  }

  /** The body of the assignment filter's callback, for a non-null assignment. */
  function AssignmentMatches(a: Assignment, query: string): (r: bool)
    ensures r <==> AnyFieldContains(AssignmentFields(a), query)
  {
    var q := Lower(query);
    var fields := AssignmentFields(a);
    assert fields[0] == a.title && fields[1] == a.description && fields[2] == a.difficulty;
    Includes(FieldText(a.title), q)
    || Includes(FieldText(a.description), q)
    || Includes(FieldText(a.difficulty), q)
  }

  function StudentFilter(query: string): Student -> bool {
    s => StudentMatches(s, query)
  }

  function AssignmentFilter(query: string): Assignment -> bool {
    a => AssignmentMatches(a, query)
  }

  /** `filteredStudents`: the non-null students matching the query, as an
      ordered subsequence of the roster that keeps every occurrence of each. */
  function FilterStudents(students: seq<Option<Student>>, query: string): (r: seq<Option<Student>>)
    ensures IsSubsequence(r, students)
    ensures forall i | 0 <= i < |r| :: r[i].Some? && AnyFieldContains(StudentFields(r[i].value), query)
    ensures forall x :: multiset(r)[x] ==
                        if x.Some? && AnyFieldContains(StudentFields(x.value), query) then multiset(students)[x] else 0
    ensures forall i | 0 <= i < |students| ::
      students[i].Some? && AnyFieldContains(StudentFields(students[i].value), query) ==> students[i] in r
  {
    var r := KeepWhere(students, StudentFilter(query));
    assert forall s :: StudentFilter(query)(s) == AnyFieldContains(StudentFields(s), query);
    assert forall x :: multiset(r)[x] == if x.Some? && StudentFilter(query)(x.value) then multiset(students)[x] else 0 by {
      forall x { KeepWhereCount(students, StudentFilter(query), x); }
    }
    assert forall i | 0 <= i < |students| && students[i].Some? && StudentFilter(query)(students[i].value) :: students[i] in r by {
      forall i | 0 <= i < |students| && students[i].Some? && StudentFilter(query)(students[i].value) {
        KeepWhereKeeps(students, StudentFilter(query), i);
      }
    }
    r
  }

  /** `filteredAssignments`: the non-null assignments matching the query, as
      an ordered subsequence that keeps every occurrence of each. */
  function FilterAssignments(assignments: seq<Option<Assignment>>, query: string): (r: seq<Option<Assignment>>)
    ensures IsSubsequence(r, assignments)
    ensures forall i | 0 <= i < |r| :: r[i].Some? && AnyFieldContains(AssignmentFields(r[i].value), query)
    ensures forall x :: multiset(r)[x] ==
                        if x.Some? && AnyFieldContains(AssignmentFields(x.value), query) then multiset(assignments)[x] else 0
    ensures forall i | 0 <= i < |assignments| ::
      assignments[i].Some? && AnyFieldContains(AssignmentFields(assignments[i].value), query) ==> assignments[i] in r
  {
    var r := KeepWhere(assignments, AssignmentFilter(query));
    assert forall a :: AssignmentFilter(query)(a) == AnyFieldContains(AssignmentFields(a), query);
    assert forall x :: multiset(r)[x] == if x.Some? && AssignmentFilter(query)(x.value) then multiset(assignments)[x] else 0 by {
      forall x { KeepWhereCount(assignments, AssignmentFilter(query), x); }
    }
    assert forall i | 0 <= i < |assignments| && assignments[i].Some? && AssignmentFilter(query)(assignments[i].value) :: assignments[i] in r by {
      forall i | 0 <= i < |assignments| && assignments[i].Some? && AssignmentFilter(query)(assignments[i].value) {
        KeepWhereKeeps(assignments, AssignmentFilter(query), i);
      }
    }
    r
  }

  /** Filtering twice with the same query is filtering once. */
  lemma FilterStudentsIdempotent(students: seq<Option<Student>>, query: string)
    ensures FilterStudents(FilterStudents(students, query), query) == FilterStudents(students, query)
  {
    KeepWhereKeepsAll(FilterStudents(students, query), StudentFilter(query));
  }

  lemma FilterAssignmentsIdempotent(assignments: seq<Option<Assignment>>, query: string)
    ensures FilterAssignments(FilterAssignments(assignments, query), query) == FilterAssignments(assignments, query)
  {
    KeepWhereKeepsAll(FilterAssignments(assignments, query), AssignmentFilter(query));
  }

  /** The empty query matches any record, whatever its fields. */
  lemma EmptyQueryMatches(fields: seq<Option<string>>)
    requires fields != []
    ensures AnyFieldContains(fields, "")
  {
    IncludesEmpty(FieldText(fields[0]));
  }

  /** The empty query keeps every non-null student, in order; on a roster
      without `null` entries it keeps the roster as it is. */
  lemma EmptyQueryKeepsEveryStudent(students: seq<Option<Student>>)
    ensures FilterStudents(students, "") == NonNull(students)
    ensures (forall i | 0 <= i < |students| :: students[i].Some?) ==> FilterStudents(students, "") == students
  {
    forall s: Student ensures StudentFilter("")(s) {
      EmptyQueryMatches(StudentFields(s));
    }
    KeepWhereAllPass(students, StudentFilter(""));
  }

  lemma EmptyQueryKeepsEveryAssignment(assignments: seq<Option<Assignment>>)
    ensures FilterAssignments(assignments, "") == NonNull(assignments)
    ensures (forall i | 0 <= i < |assignments| :: assignments[i].Some?) ==> FilterAssignments(assignments, "") == assignments
  {
    forall a: Assignment ensures AssignmentFilter("")(a) {
      EmptyQueryMatches(AssignmentFields(a));
    }
    KeepWhereAllPass(assignments, AssignmentFilter(""));
  }
}
