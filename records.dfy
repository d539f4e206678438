/** The records the DSA Management page receives from the backend: students,
    assignments, LeetCode statistics and the outcomes of the two requests. */
module Records {
  import opened Wrappers

  /** Solved problems and submissions in one difficulty bucket. */
  datatype SolvedCount = SolvedCount(count: nat, submissions: nat)

  /** The `data.leetcode` payload of the rankings endpoint. */
  datatype LeetCodeStats = LeetCodeStats(
    ranking: int,
    easy: SolvedCount,
    medium: SolvedCount,
    hard: SolvedCount,
    total: SolvedCount)

  /** A student's `leetcodeStats` property: not present, explicitly `null`
      (the stats request failed), or the fetched payload. */
  datatype StatsField = Unset | NullStats | Attached(stats: LeetCodeStats)

  /** A student as served by `/api/teacher/student-details`; every display
      field may be missing. */
  datatype Student = Student(
    id: string,
    name: Option<string>,
    email: Option<string>,
    phone: Option<string>,
    leetcodeUsername: Option<string>,
    codechefUsername: Option<string>,
    leetcodeStats: StatsField)

  datatype Assignment = Assignment(
    id: string,
    title: Option<string>,
    description: Option<string>,
    difficulty: Option<string>,
    uploadDate: Option<string>,
    deadline: Option<string>)

  /** Outcome of one `/api/student/rankings/:id` request. Every failure
      (network, non-2xx status, malformed payload) is one case, since the
      page treats them alike. */
  datatype StatsOutcome = StatsFetched(leetcode: LeetCodeStats) | StatsFailed

  /** The outcomes of the stats requests: `fetch(i)` is the outcome of the
      request sent for roster entry `i`, so two entries with the same id can
      still fare differently. */
  type StatsOracle = nat -> StatsOutcome

  /** Outcome of the `/api/teacher/student-details` request: the two lists,
      either of which may be missing (entries may be `null`), or a failure
      carrying the server's optional `message`. */
  datatype RosterResponse =
    | RosterFetched(students: Option<seq<Option<Student>>>, assignments: Option<seq<Option<Assignment>>>)
    | RosterFailed(message: Option<string>)

  /** JavaScript truthiness of an optional string: present and non-empty. */
  function HasText(f: Option<string>): (r: bool)
    ensures r <==> f.Some? && |f.value| > 0
  {
    f.Some? && f.value != ""
  }

  /** `list || []`. */
  function OrEmpty<T>(list: Option<seq<T>>): (r: seq<T>)
    ensures list.None? ==> r == []
    ensures list.Some? ==> r == list.value
  {
    list.GetOr([])
  }
}
