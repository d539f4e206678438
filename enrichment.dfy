/** Attaching LeetCode statistics to the roster: one independent stats
    request per student that has a LeetCode username, merged back in roster
    order, with each request's failure confined to its own student. */
module Enrichment {
  import opened Wrappers
  import opened Records

  /** A roster entry that triggers a stats request: not `null`, and with a
      truthy `leetcodeUsername`. */
  function NeedsStats(entry: Option<Student>): (r: bool)
    ensures entry.None? ==> !r
    ensures entry.Some? ==> (r <==> HasText(entry.value.leetcodeUsername))
  {
    entry.Some? && HasText(entry.value.leetcodeUsername)
  }

  /** The new `leetcodeStats` value: the payload on success, `null` on any
      failure. */
  function StatsAfter(outcome: StatsOutcome): (f: StatsField)
    ensures f != Unset
    ensures outcome.StatsFetched? <==> f.Attached?
    ensures f.Attached? ==> f.stats == outcome.leetcode
  {
    match outcome
    case StatsFetched(stats) => Attached(stats)
    case StatsFailed => NullStats
  }

  /** All fields of `a` and `b` agree except, possibly, `leetcodeStats`. */
  predicate SameExceptStats(a: Student, b: Student) {
    && a.id == b.id
    && a.name == b.name
    && a.email == b.email
    && a.phone == b.phone
    && a.leetcodeUsername == b.leetcodeUsername
    && a.codechefUsername == b.codechefUsername
  }

  /** The per-student callback: pass an entry through, or spread it with the
      `leetcodeStats` that its own request's `outcome` produced. */
  function EnrichEntry(entry: Option<Student>, outcome: StatsOutcome): (r: Option<Student>)
    ensures r.Some? == entry.Some?
    ensures !NeedsStats(entry) ==> r == entry
    ensures NeedsStats(entry) ==>
      SameExceptStats(r.value, entry.value) && r.value.leetcodeStats == StatsAfter(outcome)
  {
    if !NeedsStats(entry) then entry
    else Some(entry.value.(leetcodeStats := StatsAfter(outcome)))
  }

  /** The roster with statistics attached: `Promise.all` over the roster's
      `map`, so the result lines up index by index with the input. Entry `i`
      uses the outcome `fetch(i)` of the request it sent. */
  function Enrich(roster: seq<Option<Student>>, fetch: StatsOracle): (r: seq<Option<Student>>)
    ensures |r| == |roster|
    ensures forall i | 0 <= i < |roster| :: !NeedsStats(roster[i]) ==> r[i] == roster[i]
    ensures forall i | 0 <= i < |roster| :: NeedsStats(roster[i]) ==>
      && r[i].Some?
      && SameExceptStats(r[i].value, roster[i].value)
      && r[i].value.leetcodeStats == StatsAfter(fetch(i))
  {
    var r := seq(|roster|, i requires 0 <= i < |roster| => EnrichEntry(roster[i], fetch(i)));
    assert forall i | 0 <= i < |roster| :: r[i] == EnrichEntry(roster[i], fetch(i));
    r
  }

  /** The positions from `from` on of the roster entries that send a stats
      request, in increasing order: exactly those that need statistics. */
  function RequestPositionsFrom(roster: seq<Option<Student>>, from: nat): (idx: seq<nat>)
    requires from <= |roster|
    ensures forall k | 0 <= k < |idx| :: from <= idx[k] < |roster| && NeedsStats(roster[idx[k]])
    ensures forall k, l | 0 <= k < l < |idx| :: idx[k] < idx[l]
    ensures forall i | from <= i < |roster| :: NeedsStats(roster[i]) ==> i in idx
    decreases |roster| - from
  {
    if from == |roster| then []
    else
      var rest := RequestPositionsFrom(roster, from + 1);
      if NeedsStats(roster[from]) then [from] + rest else rest
  }

  /** The positions of all entries that send a stats request, in order. */
  function RequestPositions(roster: seq<Option<Student>>): (idx: seq<nat>)
    ensures forall k | 0 <= k < |idx| :: idx[k] < |roster| && NeedsStats(roster[idx[k]])
    ensures forall k, l | 0 <= k < l < |idx| :: idx[k] < idx[l]
    ensures forall i | 0 <= i < |roster| :: NeedsStats(roster[i]) ==> i in idx
  {
    RequestPositionsFrom(roster, 0)
  }

  /** The ids requested by the entries from `from` on, in roster order. */
  function RequestsFrom(roster: seq<Option<Student>>, from: nat): seq<string>
    requires from <= |roster|
    decreases |roster| - from
  {
    if from == |roster| then []
    else
      var rest := RequestsFrom(roster, from + 1);
      if NeedsStats(roster[from]) then [roster[from].value.id] + rest else rest
  }

  /** The requests sent by the entries from `from` on are, one for one and
      in order, those of the requesting positions from `from` on. */
  lemma {:induction false} RequestsFromOnePerEntry(roster: seq<Option<Student>>, from: nat)
    requires from <= |roster|
    ensures |RequestsFrom(roster, from)| == |RequestPositionsFrom(roster, from)|
    ensures forall k | 0 <= k < |RequestsFrom(roster, from)| ::
      RequestsFrom(roster, from)[k] == roster[RequestPositionsFrom(roster, from)[k]].value.id
    decreases |roster| - from
  {
    if from < |roster| {
      RequestsFromOnePerEntry(roster, from + 1);
      var ids, rest := RequestsFrom(roster, from), RequestsFrom(roster, from + 1);
      var idx, restIdx := RequestPositionsFrom(roster, from), RequestPositionsFrom(roster, from + 1);
      if NeedsStats(roster[from]) {
        assert ids == [roster[from].value.id] + rest;
        assert idx == [from] + restIdx;
        forall k | 0 <= k < |ids|
          ensures ids[k] == roster[idx[k]].value.id
        {
          if k > 0 {
            assert ids[k] == rest[k - 1] && idx[k] == restIdx[k - 1];
          }
        }
      } else {
        assert ids == rest && idx == restIdx;
      }
    }
  }

  /** The ids whose rankings are requested, in roster order: exactly one per
      entry that needs statistics (the k-th request is for the k-th such
      entry), none for the others. */
  function StatsRequests(roster: seq<Option<Student>>): (ids: seq<string>)
    ensures |ids| == |RequestPositions(roster)| <= |roster|
    ensures forall k | 0 <= k < |ids| :: ids[k] == roster[RequestPositions(roster)[k]].value.id
    ensures forall i | 0 <= i < |roster| :: NeedsStats(roster[i]) ==> roster[i].value.id in ids
    ensures forall k | 0 <= k < |ids| ::
      exists i | 0 <= i < |roster| :: NeedsStats(roster[i]) && roster[i].value.id == ids[k]
    ensures (forall i | 0 <= i < |roster| :: !NeedsStats(roster[i])) ==> ids == []
  {
    RequestsFromOnePerEntry(roster, 0);
    var ids := RequestsFrom(roster, 0);
    var idx := RequestPositions(roster);
    assert |idx| <= |roster| by { PositionsBound(idx, |roster|); }
    assert forall i | 0 <= i < |roster| && NeedsStats(roster[i]) :: roster[i].value.id in ids by {
      forall i | 0 <= i < |roster| && NeedsStats(roster[i]) ensures roster[i].value.id in ids {
        var k :| 0 <= k < |idx| && idx[k] == i;
        assert ids[k] == roster[i].value.id;
      }
    }
    assert forall k | 0 <= k < |ids| :: NeedsStats(roster[idx[k]]) && roster[idx[k]].value.id == ids[k];
    assert idx != [] ==> NeedsStats(roster[idx[0]]);
    ids
  }

  /** A strictly increasing sequence of positions below `n` has at most `n`
      elements. */
  lemma {:induction false} PositionsBound(idx: seq<nat>, n: nat)
    requires forall k | 0 <= k < |idx| :: idx[k] < n
    requires forall k, l | 0 <= k < l < |idx| :: idx[k] < idx[l]
    ensures |idx| <= n
    decreases n
  {
    if idx != [] {
      var last := idx[|idx| - 1];
      PositionsBound(idx[..|idx| - 1], last);
    }
  }

  /** Enrichment consults only the outcomes of requests actually sent: two
      oracles that agree on the requesting positions yield the same roster.
      In particular an entry without a LeetCode username depends on nothing. */
  lemma EnrichReadsOnlyRequested(roster: seq<Option<Student>>, f: StatsOracle, g: StatsOracle)
    requires forall k | 0 <= k < |RequestPositions(roster)| ::
      f(RequestPositions(roster)[k]) == g(RequestPositions(roster)[k])
    ensures Enrich(roster, f) == Enrich(roster, g)
  {
    var a, b := Enrich(roster, f), Enrich(roster, g);
    var idx := RequestPositions(roster);
    forall i | 0 <= i < |roster|
      ensures a[i] == b[i]
    {
      if NeedsStats(roster[i]) {
        var k :| 0 <= k < |idx| && idx[k] == i;
      }
    }
  }

  /** Failure isolation: an entry depends on its own request only, so a
      request that fails (or succeeds) leaves every other entry as it would
      otherwise be, even one for the same student id. */
  lemma EnrichIsolatesFailures(roster: seq<Option<Student>>, f: StatsOracle, g: StatsOracle, i: nat)
    requires i < |roster|
    requires f(i) == g(i)
    ensures Enrich(roster, f)[i] == Enrich(roster, g)[i]
  {
  }
}
