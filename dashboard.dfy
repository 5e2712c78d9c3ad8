/** The Dashboard's pure views of the fetched jobs: the three stat cards, the
    searchable job table, and the critical-deadline cards with their
    day-difference labels. */
module Dashboard {
  import opened Wrappers
  import opened Seqs
  import opened Text
  import opened Deadlines

  /** The stat cards. */
  datatype Stats = Stats(total: nat, active: int, completed: nat)

  function ClosedJob(): Job -> bool {
    (j: Job) => IsClosed(j.status)
  }

  function OpenJob(): Job -> bool {
    (j: Job) => !IsClosed(j.status)
  }

  /** `stats`: `completed` counts the completed or dispatched jobs and
      `active` is the rest, so it counts exactly the open jobs. */
  function ComputeStats(jobs: seq<Job>): (r: Stats)
    ensures r.total == |jobs|
    ensures r.completed == |Filter(jobs, ClosedJob())|
    ensures r.active == |Filter(jobs, OpenJob())|
    ensures 0 <= r.active && r.active + r.completed == r.total
  {
    var completed := |Filter(jobs, ClosedJob())|;
    FilterSplitsLength(jobs, ClosedJob(), OpenJob());
    Stats(|jobs|, |jobs| - completed, completed)
  }

  /** The table's four filter controls. */
  datatype Filters = Filters(search: string, status: string, date: string, due: string)

  /** The controls as the page first shows them. */
  const NoFilters := Filters("", "All", "", "")

  /** `job.job_id_display` is truthy. */
  predicate HasDisplayId(j: Job) {
    j.jobIdDisplay.Some? && j.jobIdDisplay.value != ""
  }

  /** The search box: the lower-cased term in the lower-cased client name,
      submitter or display id. */
  predicate MatchesSearch(j: Job, term: string) {
    var t := Lower(term);
    Includes(Lower(j.clientName), t)
    || Includes(Lower(j.submittedBy), t)
    || (HasDisplayId(j) && Includes(Lower(j.jobIdDisplay.value), t))
  }

  predicate MatchesStatus(j: Job, status: string) {
    status == "All" || j.status == status
  }

  /** The creation-date filter compares the UTC calendar date of `created_at`. */
  predicate MatchesDate(j: Job, date: string) {
    date == "" || j.createdDate == date
  }

  /** The due-date filter compares the stored due date up to its first `T`. */
  predicate MatchesDue(j: Job, due: string) {
    due == "" || (HasDueDate(j) && Split(j.dueDate.value, "T")[0] == due)
  }

  predicate Shown(j: Job, f: Filters) {
    MatchesSearch(j, f.search) && MatchesStatus(j, f.status)
    && MatchesDate(j, f.date) && MatchesDue(j, f.due)
  }

  function ShownBy(f: Filters): Job -> bool {
    (j: Job) => Shown(j, f)
  }

  /** `filteredJobs`: the jobs every control lets through, in fetch order. */
  function FilteredJobs(jobs: seq<Job>, f: Filters): (r: seq<Job>)
    ensures forall j :: j in r <==> j in jobs && Shown(j, f)
    ensures f.status != "All" ==> forall i :: 0 <= i < |r| ==> r[i].status == f.status
    ensures |r| <= |jobs|
  {
    var r := Filter(jobs, ShownBy(f));
    forall j
      ensures j in r <==> j in jobs && Shown(j, f)
    {
      FilterMembership(jobs, ShownBy(f), j);
    }
    r
  }

  /** With the controls untouched every job is listed, in order. */
  lemma NoFiltersKeepsAll(jobs: seq<Job>)
    ensures FilteredJobs(jobs, NoFilters) == jobs
  {
    forall i | 0 <= i < |jobs|
      ensures ShownBy(NoFilters)(jobs[i])
    {
      assert OccursAt(Lower(jobs[i].clientName), Lower(""), 0);
    }
  }

  /** The table keeps the fetch order: filtering a concatenation is the
      concatenation of the filtered parts. */
  lemma FilteredKeepsOrder(a: seq<Job>, b: seq<Job>, f: Filters)
    ensures FilteredJobs(a + b, f) == FilteredJobs(a, f) + FilteredJobs(b, f)
  {
    FilterAppend(a, b, ShownBy(f));
  }

  /** Narrowing the status of an unfiltered table lists exactly the jobs of
      that status. */
  lemma StatusOnly(jobs: seq<Job>, status: string)
    requires status != "All"
    ensures FilteredJobs(jobs, Filters("", status, "", ""))
            == Filter(jobs, (j: Job) => j.status == status)
  {
    var f := Filters("", status, "", "");
    forall j: Job
      ensures ShownBy(f)(j) == (j.status == status)
    {
      assert OccursAt(Lower(j.clientName), Lower(""), 0);
    }
    FilterExtensional(jobs, ShownBy(f), (j: Job) => j.status == status);
  }

  /** The critical card's badge for a day difference `d`. */
  function DueLabel(d: int): (r: string)
    ensures IsOverdue(d) <==> EndsWith(r, " Days Overdue")
  {
    if d < 0 then NatToString(-d) + " Days Overdue"
    else if d == 0 then "Due Today"
    else if d == 1 then "Due Tomorrow"
    else
      var r := "In " + NatToString(d) + " Days";
      assert r[|r| - 1] == 's';
      r
  }

  /** The card's overdue styling flag. */
  predicate IsOverdue(d: int) {
    d < 0
  }

  predicate EndsWith(s: string, suffix: string) {
    |suffix| <= |s| && s[|s| - |suffix|..] == suffix
  }

  /** Different day differences get different badges, so the badge tells
      the exact difference. */
  lemma DueLabelInjective(a: int, b: int)
    requires DueLabel(a) == DueLabel(b)
    ensures a == b
  {
    var la := DueLabel(a);
    assert a < 0 <==> la[|la| - 1] == 'e';
    assert a == 0 <==> la[|la| - 1] == 'y';
    assert a == 1 <==> la[|la| - 1] == 'w';
    if a < 0 {
      var suffix := " Days Overdue";
      assert NatToString(-a) == la[..|la| - |suffix|] == NatToString(-b);
      NatToStringInjective(-a, -b);
    } else if a > 1 {
      var sa, sb := NatToString(a), NatToString(b);
      assert la == "In " + sa + " Days" == "In " + sb + " Days";
      assert sa == la[3..|la| - 5] == sb;
      NatToStringInjective(a, b);
    }
  }

  /** The number of critical cards shown. */
  const MaxCards: nat := 6

  /** `upcomingJobs.slice(0, 6)`: the first six critical jobs, or all of
      them when there are fewer. */
  function VisibleCards(upcoming: seq<Job>): (r: seq<Job>)
    ensures |r| == if |upcoming| <= MaxCards then |upcoming| else MaxCards
    ensures forall i :: 0 <= i < |r| ==> r[i] == upcoming[i]
  {
    if |upcoming| <= MaxCards then upcoming else upcoming[..MaxCards]
  }

  /** The "And N more critical tasks" note: present only when some critical
      job has no card, and then it counts exactly those jobs. */
  function MoreNote(upcoming: seq<Job>): (r: Option<nat>)
    ensures r.Some? <==> |upcoming| > MaxCards
    ensures r.Some? ==> |VisibleCards(upcoming)| + r.value == |upcoming|
    ensures r.Some? ==> r.value > 0
  {
    if |upcoming| > MaxCards then Some(|upcoming| - MaxCards) else None
  }
}
