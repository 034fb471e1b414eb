/**
 * The text and badge classes the occurrence details card derives from an
 * occurrence record: the status and severity badges, the status label,
 * the capitalised severity and type, the blank for a missing date, and
 * the fallbacks for a missing reporter or aircraft.
 */
module OccurrenceDetails {
  import opened Options
  import opened Text

  const Yellow: string := "bg-yellow-100 text-yellow-800"
  const Blue: string := "bg-blue-100 text-blue-800"
  const Orange: string := "bg-orange-100 text-orange-800"
  const Green: string := "bg-green-100 text-green-800"
  const Red: string := "bg-red-100 text-red-800"
  const Gray: string := "bg-gray-100 text-gray-800"

  /** The four statuses the status badge distinguishes. */
  const BadgedStatuses: seq<string> := ["reported", "in_review", "under_investigation", "closed"]

  /** The four severities. */
  const Severities: seq<string> := ["low", "medium", "high", "critical"]

  /** `getStatusBadgeClass`. */
  function StatusBadgeClass(status: string): (c: string)
    ensures c == Gray <==> status !in BadgedStatuses
    ensures status == "reported" ==> c == Yellow
    ensures status == "in_review" ==> c == Blue
    ensures status == "under_investigation" ==> c == Orange
    ensures status == "closed" ==> c == Green
  {
    match status
    case "reported" => Yellow
    case "in_review" => Blue
    case "under_investigation" => Orange
    case "closed" => Green
    case _ => Gray
  }

  /** `getSeverityBadgeClass`: green, yellow, orange, red in rising severity; gray otherwise. */
  function SeverityBadgeClass(severity: string): (c: string)
    ensures c == Gray <==> severity !in Severities
    ensures forall i :: 0 <= i < |Severities| && severity == Severities[i] ==>
      c == [Green, Yellow, Orange, Red][i]
  {
    match severity
    case "low" => Green
    case "medium" => Yellow
    case "high" => Orange
    case "critical" => Red
    case _ => Gray
  }

  /** Distinct badged statuses get distinct badges, so the badge tells them apart. */
  lemma StatusBadgesDistinct(s: string, t: string)
    requires s in BadgedStatuses && t in BadgedStatuses && s != t
    ensures StatusBadgeClass(s) != StatusBadgeClass(t)
  {
  }

  /** Statuses outside the badge map, such as "new" or "in_progress", fall back to gray. */
  lemma UnlistedStatusesGray()
    ensures StatusBadgeClass("new") == Gray
    ensures StatusBadgeClass("in_progress") == Gray
    ensures SeverityBadgeClass("Critical") == Gray
  {
  }

  /**
   * The status label: two statuses have a wording of their own; every
   * other status is shown with its first character upper-cased.
   */
  function StatusLabel(status: string): (r: string)
    ensures status == "in_review" ==> r == "Under Review"
    ensures status == "under_investigation" ==> r == "Under Investigation"
    ensures status != "in_review" && status != "under_investigation" ==>
      (|r| == |status| && (|status| > 0 ==> r[0] == UpperChar(status[0]) && r[1..] == status[1..]))
  {
    if status == "in_review" then "Under Review"
    else if status == "under_investigation" then "Under Investigation"
    else Capitalise(status)
  }

  /** Capitalisation touches only the first character: `in_progress` shows as `In_progress`. */
  lemma StatusLabelExamples()
    ensures StatusLabel("in_progress") == "In_progress"
    ensures StatusLabel("reported") == "Reported"
    ensures StatusLabel("closed") == "Closed"
    ensures StatusLabel("") == ""
  {
    assert UpperChar('i') == 'I' && UpperChar('r') == 'R' && UpperChar('c') == 'C';
  }

  /** What the "Reported on" line shows: nothing, or the date-fns rendering of the timestamp. */
  datatype DateText = Blank | Rendered(timestamp: string)

  /** `formatDate`: a missing or empty timestamp shows as the empty string. */
  function FormatDate(timestamp: Option<string>): (d: DateText)
    ensures d.Blank? <==> timestamp.None? || timestamp.value == ""
    ensures d.Rendered? ==> Some(d.timestamp) == timestamp
  {
    if timestamp.None? || timestamp.value == "" then Blank else Rendered(timestamp.value)
  }

  /**
   * `value || fallback` for a display string: the reporter's full name
   * falls back to "Unknown", the aircraft's registration to "N/A".
   */
  function OrFallback(value: Option<string>, fallback: string): (r: string)
    ensures r == fallback <==> value.None? || value.value == "" || value.value == fallback
    ensures r != fallback ==> Some(r) == value
  {
    if value.None? || value.value == "" then fallback else value.value
  }
}
