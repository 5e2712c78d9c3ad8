/** The deadline classifier shared by the Dashboard's critical-deadlines
    panel and the sidebar's notification count: which open jobs are due
    within a week (or overdue), and their ordering by due date. Dates are
    day numbers; `today` is a parameter. */
module Deadlines {
  import opened Wrappers
  import opened Seqs

  /** A job as the dashboard lists it. `dueDate` is `expected_delivery_date`
      as stored; `dueDay` is the day number that text denotes (at local
      midnight), `None` when it does not parse; `createdDate` is the UTC
      calendar date (`YYYY-MM-DD`) of `created_at`. */
  datatype Job = Job(
    id: int,
    jobIdDisplay: Option<string>,
    clientName: string,
    submittedBy: string,
    status: string,
    dueDate: Option<string>,
    dueDay: Option<int>,
    createdDate: string)

  /** `job.expected_delivery_date` is truthy. */
  predicate HasDueDate(j: Job) {
    j.dueDate.Some? && j.dueDate.value != ""
  }

  /** Completed and dispatched jobs need no more attention. */
  predicate IsClosed(status: string) {
    status == "Completed" || status == "Dispatched"
  }

  /** The job's due day minus today, when the due date parses. */
  function DayDiff(j: Job, today: int): Option<int> {
    match j.dueDay
    case Some(d) => Some(d - today)
    case None => None
  }

  /** The classifier: an open job with a due date that is overdue or due in
      at most seven days. An unparseable date gives a `NaN` difference, which
      is never `<= 7`. */
  predicate IsCritical(j: Job, today: int) {
    HasDueDate(j) && !IsClosed(j.status) && j.dueDay.Some? && j.dueDay.value - today <= 7
  }

  function CriticalOn(today: int): Job -> bool {
    (j: Job) => IsCritical(j, today)
  }

  /** `jobs.filter(...)` with the classifier, in fetch order. */
  function Critical(jobs: seq<Job>, today: int): (r: seq<Job>)
    ensures forall i :: 0 <= i < |r| ==> IsCritical(r[i], today)
    ensures forall j :: j in r <==> j in jobs && IsCritical(j, today)
    ensures |r| <= |jobs|
  {
    var r := Filter(jobs, CriticalOn(today));
    forall j
      ensures j in r <==> j in jobs && IsCritical(j, today)
    {
      FilterMembership(jobs, CriticalOn(today), j);
    }
    r
  }

  /** Closed jobs and jobs without a due date are never critical, however
      overdue; every other job with a parseable date is critical exactly when
      it is due within seven days, with no lower bound. */
  lemma CriticalCases(j: Job, today: int)
    ensures !HasDueDate(j) || IsClosed(j.status) ==> !IsCritical(j, today)
    ensures HasDueDate(j) && !IsClosed(j.status) && j.dueDay.Some? ==>
              (IsCritical(j, today) <==> DayDiff(j, today).value <= 7)
  {
  }

  /** The sort key of the comparator `new Date(a) - new Date(b)`. */
  function DueKey(j: Job): int {
    j.dueDay.GetOr(0)
  }

  predicate SortedByDue(s: seq<Job>) {
    forall i, k :: 0 <= i < k < |s| ==> DueKey(s[i]) <= DueKey(s[k])
  }

  /** Puts `x` in front of the first job due no earlier than it. */
  function InsertByDue(x: Job, s: seq<Job>): (r: seq<Job>)
    requires SortedByDue(s)
    ensures SortedByDue(r)
    ensures multiset(r) == multiset(s) + multiset{x}
    ensures |r| == |s| + 1
    ensures r[0] == x || (|s| > 0 && r[0] == s[0])
  {
    if s == [] || DueKey(x) <= DueKey(s[0]) then [x] + s
    else
      var rest := InsertByDue(x, s[1..]);
      assert s == [s[0]] + s[1..];
      SortedCons(s[0], rest);
      [s[0]] + rest
  }

  /** A job due no later than the head of a sorted list can be put in front of it. */
  lemma SortedCons(h: Job, t: seq<Job>)
    requires SortedByDue(t)
    requires |t| > 0 ==> DueKey(h) <= DueKey(t[0])
    ensures SortedByDue([h] + t)
  {
    var r := [h] + t;
    forall i, k | 0 <= i < k < |r|
      ensures DueKey(r[i]) <= DueKey(r[k])
    {
      if i > 0 {
        assert r[i] == t[i - 1] && r[k] == t[k - 1];
      } else {
        assert r[k] == t[k - 1];
      }
    }
  }

  /** `Array.prototype.sort` with the due-date comparator: a stable sort. */
  function SortByDue(s: seq<Job>): (r: seq<Job>)
    ensures SortedByDue(r)
    ensures multiset(r) == multiset(s)
    ensures |r| == |s|
  {
    if s == [] then []
    else
      assert s == [s[0]] + s[1..];
      InsertByDue(s[0], SortByDue(s[1..]))
  }

  function DueOn(d: int): Job -> bool {
    (j: Job) => DueKey(j) == d
  }

  /** Inserting keeps the order among jobs due the same day, `x` first. */
  lemma {:induction false} InsertKeepsTies(x: Job, s: seq<Job>, d: int)
    requires SortedByDue(s)
    ensures Filter(InsertByDue(x, s), DueOn(d))
            == if DueKey(x) == d then [x] + Filter(s, DueOn(d)) else Filter(s, DueOn(d))
  {
    if s != [] && DueKey(x) > DueKey(s[0]) {
      var tail := s[1..];
      InsertKeepsTies(x, tail, d);
      assert s == [s[0]] + tail;
      InsertLater(x, s[0], tail, InsertByDue(x, tail), d);
    } else {
      FilterAppend([x], s, DueOn(d));
    }
  }

  /** One step of `InsertKeepsTies` when `x` goes after the first job `h`:
      `ins` is `x` inserted into the rest `t`. */
  lemma InsertLater(x: Job, h: Job, t: seq<Job>, ins: seq<Job>, d: int)
    requires DueKey(x) > DueKey(h)
    requires Filter(ins, DueOn(d)) == if DueKey(x) == d then [x] + Filter(t, DueOn(d)) else Filter(t, DueOn(d))
    ensures Filter([h] + ins, DueOn(d))
            == if DueKey(x) == d then [x] + Filter([h] + t, DueOn(d)) else Filter([h] + t, DueOn(d))
  {
    FilterCons(h, ins, DueOn(d));
    FilterCons(h, t, DueOn(d));
  }

  /** The sort is stable: jobs due the same day keep their fetch order. */
  lemma {:induction false} SortIsStable(s: seq<Job>, d: int)
    ensures Filter(SortByDue(s), DueOn(d)) == Filter(s, DueOn(d))
  {
    if s != [] {
      SortIsStable(s[1..], d);
      InsertKeepsTies(s[0], SortByDue(s[1..]), d);
    }
  }

  /** The Dashboard's `upcomingJobs`: the critical jobs, earliest due first. */
  function UpcomingJobs(jobs: seq<Job>, today: int): (r: seq<Job>)
    ensures SortedByDue(r)
    ensures multiset(r) == multiset(Critical(jobs, today))
    ensures forall j :: j in r <==> j in jobs && IsCritical(j, today)
  {
    var r := SortByDue(Critical(jobs, today));
    assert forall j :: j in r <==> j in multiset(r);
    r
  }
}
