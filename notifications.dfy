/** The sidebar's notification state: the critical jobs of the last
    successful fetch and their count, always updated together. */
module Notifications {
  import opened Wrappers
  import opened Seqs
  import opened Deadlines

  class NotificationCenter {
    var criticalCount: nat
    var notifications: seq<Job>

    /** The count shown on the badge is the length of the list. */
    predicate Valid()
      reads this
    {
      criticalCount == |notifications|
    }

    /** The provider's initial state: no notifications. */
    constructor ()
      ensures Valid()
      ensures criticalCount == 0 && notifications == []
    {
      criticalCount := 0;
      notifications := [];
    }

    /** `fetchNotifications`: `response` is the fetched job list, `None` when
        the request fails; `today` is the current day number. A success
        replaces both fields with the critical jobs in fetch order; a failure
        changes nothing. */
    method Fetch(response: Option<seq<Job>>, today: int)
      requires Valid()
      modifies this
      ensures Valid()
      ensures response.Some? ==> notifications == Critical(response.value, today)
      ensures response.Some? ==> criticalCount == |Critical(response.value, today)|
      ensures response.None? ==> notifications == old(notifications)
      ensures response.None? ==> criticalCount == old(criticalCount)
    {
      match response {
        case Some(jobs) =>
          var critical := Critical(jobs, today);
          criticalCount := |critical|;
          notifications := critical;
        case None =>
      }
    }
  }

  /** The sidebar and the Dashboard agree: the sidebar's unsorted list holds
      exactly the Dashboard's critical jobs, so the badge count equals the
      number of critical deadlines the Dashboard lists. */
  lemma SidebarMatchesDashboard(jobs: seq<Job>, today: int)
    ensures multiset(Critical(jobs, today)) == multiset(UpcomingJobs(jobs, today))
    ensures |Critical(jobs, today)| == |UpcomingJobs(jobs, today)|
  {
    var c, u := Critical(jobs, today), UpcomingJobs(jobs, today);
    assert |multiset(c)| == |multiset(u)|;
  }
}
