/** The status badge: the CSS class chosen for a job status, and its text. */
module StatusBadge {
  import opened Wrappers

  /** The six statuses the console assigns, in workflow order. */
  const Statuses: seq<string> :=
    ["Received", "In Design", "In Production", "Quality Check", "Dispatched", "Completed"]

  /** The class suffix of each status, in the same order. */
  const Suffixes: seq<string> :=
    ["badge-received", "badge-design", "badge-production", "badge-quality",
     "badge-dispatched", "badge-completed"]

  /** The `switch`: a known status picks its own suffix, anything else the
      suffix of `Received`. */
  function Suffix(status: string): (r: string)
    ensures r in Suffixes
    ensures forall i :: 0 <= i < |Statuses| && Statuses[i] == status ==> r == Suffixes[i]
    ensures status !in Statuses ==> r == Suffixes[0]
  {
    match status
    case "Received" => "badge-received"
    case "In Design" => "badge-design"
    case "In Production" => "badge-production"
    case "Quality Check" => "badge-quality"
    case "Dispatched" => "badge-dispatched"
    case "Completed" => "badge-completed"
    case _ => "badge-received"
  }

  /** The badge's `className`: `badge ` followed by the suffix. */
  function BadgeClass(status: string): (r: string)
    ensures |r| > 6 && r[..6] == "badge "
    ensures |r| > 6 && r[6..] == Suffix(status)
  {
    "badge " + Suffix(status)
  }

  /** Any status outside the six is styled as `Received`. */
  lemma UnknownLooksReceived(status: string)
    requires status !in Statuses
    ensures BadgeClass(status) == BadgeClass("Received")
  {
  }

  /** The badge's text is the status itself. */
  function BadgeText(status: string): (r: string)
    ensures r == status
  {
    status
  }

  /** Reading a status back from a badge class, as an independent inverse
      of the switch. */
  function StatusOfClass(cls: string): Option<string> {
    if |cls| < 6 || cls[..6] != "badge " then None
    else
      var suffix := cls[6..];
      if suffix == "badge-received" then Some("Received")
      else if suffix == "badge-design" then Some("In Design")
      else if suffix == "badge-production" then Some("In Production")
      else if suffix == "badge-quality" then Some("Quality Check")
      else if suffix == "badge-dispatched" then Some("Dispatched")
      else if suffix == "badge-completed" then Some("Completed")
      else None
  }

  /** The class tells the status: each of the six statuses gets a class of
      its own, and any other status reads back as `Received`. */
  lemma ClassIdentifiesStatus(status: string)
    ensures status in Statuses ==> StatusOfClass(BadgeClass(status)) == Some(status)
    ensures status !in Statuses ==> StatusOfClass(BadgeClass(status)) == Some("Received")
  {
    var cls := BadgeClass(status);
    assert cls[6..] == Suffix(status);
  }

  /** Two of the six statuses never share a class. */
  lemma DistinctClasses(a: string, b: string)
    requires a in Statuses && b in Statuses && a != b
    ensures BadgeClass(a) != BadgeClass(b)
  {
    ClassIdentifiesStatus(a);
    ClassIdentifiesStatus(b);
  }
}
