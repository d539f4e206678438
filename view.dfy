/** Decisions the page derives from its data when rendering: a student's
    profile status, an assignment's difficulty colour, whether the
    "no results" message shows, and the text of the error banner. */
module View {
  import opened Wrappers
  import opened Text
  import opened Records
  import opened Enrichment
  import opened Search

  /** Colours of the component library's chips. */
  datatype Color = Success | Warning | Error

  datatype Status = Complete | Incomplete

  /** The "Status" column: Complete when both coding profiles are linked. */
  function StatusOf(s: Student): (r: Status)
    ensures r == Complete <==> HasText(s.leetcodeUsername) && HasText(s.codechefUsername)
    ensures r == Complete ==> NeedsStats(Some(s))
  {
    if HasText(s.leetcodeUsername) && HasText(s.codechefUsername) then Complete else Incomplete
  }

  /** Enrichment never changes a student's status. */
  lemma StatusIgnoresStats(roster: seq<Option<Student>>, fetch: StatsOracle, i: nat)
    requires i < |roster| && roster[i].Some?
    ensures Enrich(roster, fetch)[i].Some?
    ensures StatusOf(Enrich(roster, fetch)[i].value) == StatusOf(roster[i].value)
  {
  }

  /** The colour of an assignment's difficulty chip. */
  function DifficultyColor(difficulty: Option<string>): (c: Color)
    ensures c == Success <==> difficulty.Some? && Lower(difficulty.value) == "easy"
    ensures c == Warning <==> difficulty.Some? && Lower(difficulty.value) == "medium"
    ensures c == Error <==> difficulty.None? || Lower(difficulty.value) !in {"easy", "medium"}
  {
    if difficulty.Some? && Lower(difficulty.value) == "easy" then Success
    else if difficulty.Some? && Lower(difficulty.value) == "medium" then Warning
    else Error
  }

  /** The colour does not depend on the label's case. */
  lemma DifficultyColorIgnoresCase(difficulty: string)
    ensures DifficultyColor(Some(Lower(difficulty))) == DifficultyColor(Some(difficulty))
  {
    LowerIdempotent(difficulty);
  }

  /** Whether the "no results" message shows: the active tab's filtered list
      is empty, i.e. no non-null entry of that tab's list matches the query.
      Tab 0 lists students, tab 1 assignments. */
  function NoResults(tab: nat, students: seq<Option<Student>>, assignments: seq<Option<Assignment>>, query: string): (r: bool)
    ensures r <==>
      || (tab == 0 && forall i | 0 <= i < |students| ::
            !(students[i].Some? && AnyFieldContains(StudentFields(students[i].value), query)))
      || (tab == 1 && forall i | 0 <= i < |assignments| ::
            !(assignments[i].Some? && AnyFieldContains(AssignmentFields(assignments[i].value), query)))
  {
    var shownStudents := FilterStudents(students, query);
    var shownAssignments := FilterAssignments(assignments, query);
    assert shownStudents != [] ==> multiset(students)[shownStudents[0]] > 0;
    assert shownAssignments != [] ==> multiset(assignments)[shownAssignments[0]] > 0;
    (tab == 0 && |shownStudents| == 0) || (tab == 1 && |shownAssignments| == 0)
  }

  /** The stats requests' outcomes never decide whether the message shows. */
  lemma NoResultsIgnoresStats(
    tab: nat, roster: seq<Option<Student>>, assignments: seq<Option<Assignment>>,
    query: string, fetch: StatsOracle)
    ensures NoResults(tab, Enrich(roster, fetch), assignments, query) == NoResults(tab, roster, assignments, query)
  {
    var enriched := Enrich(roster, fetch);
    assert forall i | 0 <= i < |roster| :: enriched[i].Some? == roster[i].Some?;
    assert forall i | 0 <= i < |roster| && roster[i].Some? ::
      StudentFields(enriched[i].value) == StudentFields(roster[i].value);
  }

  /** With an empty query the message shows exactly when the active tab's
      list has no non-null entry. */
  lemma EmptyQueryNoResults(tab: nat, students: seq<Option<Student>>, assignments: seq<Option<Assignment>>)
    ensures tab == 0 ==> (NoResults(tab, students, assignments, "") <==> forall i | 0 <= i < |students| :: students[i].None?)
    ensures tab == 1 ==> (NoResults(tab, students, assignments, "") <==> forall i | 0 <= i < |assignments| :: assignments[i].None?)
    ensures tab > 1 ==> !NoResults(tab, students, assignments, "")
  {
    forall s: Student ensures AnyFieldContains(StudentFields(s), "") {
      EmptyQueryMatches(StudentFields(s));
    }
    forall a: Assignment ensures AnyFieldContains(AssignmentFields(a), "") {
      EmptyQueryMatches(AssignmentFields(a));
    }
  }

  const DefaultError := "Failed to fetch data"

  /** The page-level error after the roster request fails: the server's
      message when it has one, the generic text otherwise. Never empty, so
      the error banner always shows. */
  function ErrorMessage(serverMessage: Option<string>): (r: string)
    ensures r != ""
    ensures HasText(serverMessage) ==> r == serverMessage.value
    ensures !HasText(serverMessage) ==> r == DefaultError
  {
    if HasText(serverMessage) then serverMessage.value else DefaultError
  }
}
