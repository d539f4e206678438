/** The DSA Management page's component state and its transitions: the
    one-time load on mount, typing in the search box, switching tabs. */
module Page {
  import opened Wrappers
  import opened Records
  import opened Enrichment
  import opened Search
  import opened View

  class DsaSubmissionsPage {
    var loading: bool
    var error: Option<string>
    var students: seq<Option<Student>>
    var assignments: seq<Option<Assignment>>
    var searchQuery: string
    /** 0 shows the student profiles, 1 the assignments. */
    var activeTab: nat

    /** The state when the page mounts: loading, no error, empty lists, an
        empty query and the student tab. */
    constructor ()
      ensures loading && error == None
      ensures students == [] && assignments == []
      ensures searchQuery == "" && activeTab == 0
      ensures ShowsSpinner()
    {
      loading := true;
      error := None;
      students := [];
      assignments := [];
      searchQuery := "";
      activeTab := 0;
    }

    /** While loading, the page renders only a spinner. */
    function ShowsSpinner(): (r: bool)
      reads this
      ensures r <==> loading
      ensures r ==> !ShowsErrorBanner() && !ShowsNoResults()
    {
      loading
    }

    /** The error banner (`error && <Alert>`, outside the loading branch). */
    function ShowsErrorBanner(): (r: bool)
      reads this
      ensures r <==> !loading && error.Some? && error.value != ""
    {
      !loading && HasText(error)
    }

    /** The "no results" message (outside the loading branch). */
    function ShowsNoResults(): (r: bool)
      reads this
      ensures r <==>
        && !loading
        && (|| (activeTab == 0 && forall i | 0 <= i < |students| ::
                  !(students[i].Some? && AnyFieldContains(StudentFields(students[i].value), searchQuery)))
            || (activeTab == 1 && forall i | 0 <= i < |assignments| ::
                  !(assignments[i].Some? && AnyFieldContains(AssignmentFields(assignments[i].value), searchQuery))))
    {
      !loading && NoResults(activeTab, students, assignments, searchQuery)
    }

    /** The rest of `fetchData` once the roster request has completed. On
        success: store the assignments (or []), then the enriched students
        (or []); the error is not touched, whatever the stats requests did.
        On failure: only set the error text. Either way loading ends. */
    method CompleteFetch(response: RosterResponse, fetch: StatsOracle)
      modifies this
      ensures !loading
      ensures searchQuery == old(searchQuery) && activeTab == old(activeTab)
      ensures response.RosterFetched? ==>
        && assignments == OrEmpty(response.assignments)
        && students == Enrich(OrEmpty(response.students), fetch)
        && error == old(error)
      ensures response.RosterFailed? ==>
        && error == Some(ErrorMessage(response.message))
        && students == old(students) && assignments == old(assignments)
      ensures response.RosterFailed? ==> ShowsErrorBanner()
    {
      match response {
        case RosterFetched(studentList, assignmentList) =>
          assignments := OrEmpty(assignmentList);
          var enriched := Enrich(OrEmpty(studentList), fetch);
          students := enriched;
        case RosterFailed(message) =>
          error := Some(ErrorMessage(message));
      }
      loading := false;
    }

    /** Typing in the search box. */
    method SetSearchQuery(query: string)
      modifies this
      ensures searchQuery == query
      ensures loading == old(loading) && error == old(error) && activeTab == old(activeTab)
      ensures students == old(students) && assignments == old(assignments)
    {
      searchQuery := query;
    }

    /** Clicking a tab: changes what is shown, never refetches. */
    method SetActiveTab(tab: nat)
      modifies this
      ensures activeTab == tab
      ensures loading == old(loading) && error == old(error) && searchQuery == old(searchQuery)
      ensures students == old(students) && assignments == old(assignments)
    {
      activeTab := tab;
    }
  }

  /** Mounting the page: the effect with no dependencies runs the load once.
      A failed roster request leaves both lists empty and shows the banner
      together with the "no students found" message; a
      successful one shows no banner, and until the user types, the "no
      results" message shows exactly when the roster has no non-null student. */
  method Mount(response: RosterResponse, fetch: StatsOracle) returns (page: DsaSubmissionsPage)
    ensures !page.loading && !page.ShowsSpinner()
    ensures page.searchQuery == "" && page.activeTab == 0
    ensures response.RosterFailed? ==>
      && page.students == [] && page.assignments == []
      && page.error == Some(ErrorMessage(response.message))
      && page.ShowsErrorBanner() && page.ShowsNoResults()
    ensures response.RosterFetched? ==>
      && page.error == None && !page.ShowsErrorBanner()
      && page.students == Enrich(OrEmpty(response.students), fetch)
      && page.assignments == OrEmpty(response.assignments)
    ensures response.RosterFetched? ==>
      (page.ShowsNoResults() <==>
        forall i | 0 <= i < |OrEmpty(response.students)| :: OrEmpty(response.students)[i].None?)
  {
    page := new DsaSubmissionsPage();
    page.CompleteFetch(response, fetch);
    EmptyQueryNoResults(0, page.students, page.assignments);
    if response.RosterFetched? {
      var roster := OrEmpty(response.students);
      NoResultsIgnoresStats(0, roster, page.assignments, "", fetch);
      EmptyQueryNoResults(0, roster, page.assignments);
    }
  }
}
