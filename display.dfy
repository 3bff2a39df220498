/** The computations behind the display in app.js that do not depend on the
    DOM: the relative date buckets of `formatDate`, the category labels,
    the 200-character cut of `sanitizeDescription` and the success/error
    tally of `updateSourceStatus`. */
module Display {
  import opened Prelude
  import opened JsStrings
  import opened Feeds

  const MinuteMs: int := 60000
  const HourMs: int := 3600000
  const DayMs: int := 86400000

  /** What `formatDate` renders: "Unknown date", "Just now", "<n>m ago",
      "<n>h ago", "<n>d ago", or a calendar date of the given time. */
  datatype DateLabel = UnknownDate | JustNow | MinutesAgo(n: int) | HoursAgo(n: int) | DaysAgo(n: int) | Calendar(ms: int)

  /** `formatDate(date)` at time `now`; `Math.floor` of a quotient by a
      positive constant is Dafny's `/`. */
  function FormatDate(date: Option<int>, now: int): (r: DateLabel)
    ensures date.None? <==> r.UnknownDate?
    ensures date.Some? ==>
      var diff := now - date.value;
      && (r.JustNow? <==> diff < MinuteMs)
      && (r.MinutesAgo? <==> MinuteMs <= diff < HourMs)
      && (r.HoursAgo? <==> HourMs <= diff < DayMs)
      && (r.DaysAgo? <==> DayMs <= diff < 7 * DayMs)
      && (r.Calendar? <==> 7 * DayMs <= diff)
      && (r.MinutesAgo? ==> 1 <= r.n < 60 && r.n * MinuteMs <= diff < (r.n + 1) * MinuteMs)
      && (r.HoursAgo? ==> 1 <= r.n < 24 && r.n * HourMs <= diff < (r.n + 1) * HourMs)
      && (r.DaysAgo? ==> 1 <= r.n < 7 && r.n * DayMs <= diff < (r.n + 1) * DayMs)
      && (r.Calendar? ==> r.ms == date.value)
  {
    match date
    case None => UnknownDate
    case Some(d) =>
      var diff := now - d;
      var minutes := diff / MinuteMs;
      var hours := diff / HourMs;
      var days := diff / DayMs;
      if minutes < 1 then JustNow
      else if minutes < 60 then MinutesAgo(minutes)
      else if hours < 24 then HoursAgo(hours)
      else if days < 7 then DaysAgo(days)
      else Calendar(d)
  }

  /** `labels[category] || category` in `getCategoryLabel`. */
  const CategoryLabels: map<string, string> := map[
    "latest_technologies" := "Technology",
    "economic_trends_and_business_models" := "Economy",
    "global_trends_world_news" := "World News"]

  /** A category's label: its entry in the table, else the category itself.
      No label coincides with its own key, so a category is shown as is
      exactly when it has no entry; the three known categories keep
      distinct labels; and only the empty category gets an empty label. */
  function CategoryLabel(category: string): (r: string)
    ensures category in CategoryLabels ==> r == CategoryLabels[category]
    ensures category !in CategoryLabels ==> r == category
    ensures r == category <==> category !in CategoryLabels
    ensures r == [] <==> category == []
    ensures forall other :: other in CategoryLabels && other != category && category in CategoryLabels ==>
      CategoryLabels[other] != r
  {
    if category in CategoryLabels then CategoryLabels[category] else category
  }

  const MaxDescriptionLength: nat := 200

  /** The length cut of `sanitizeDescription`, applied to the text content. */
  function TruncateText(text: string): (r: string)
    ensures |r| <= MaxDescriptionLength + 3
    ensures |text| <= MaxDescriptionLength ==> r == text
    ensures |text| > MaxDescriptionLength ==> |r| == MaxDescriptionLength + 3 && r[..MaxDescriptionLength] == text[..MaxDescriptionLength] && r[MaxDescriptionLength..] == "..."
  {
    if |text| > MaxDescriptionLength then text[..MaxDescriptionLength] + "..." else text
  }

  /** `sanitizeDescription(html)` before escaping; `textContent` is the text
      the browser extracts from `html`. */
  function DescriptionText(html: Option<string>, textContent: string): (r: string)
    ensures !Truthy(html) ==> r == "No description available"
    ensures Truthy(html) ==> r == TruncateText(textContent)
    ensures |r| <= MaxDescriptionLength + 3
    ensures r == [] <==> Truthy(html) && textContent == []
    ensures Truthy(html) && |textContent| <= MaxDescriptionLength ==> r == textContent
    ensures Truthy(html) && |textContent| > MaxDescriptionLength ==> r[..MaxDescriptionLength] == textContent[..MaxDescriptionLength]
  {
    if !Truthy(html) then "No description available" else TruncateText(textContent)
  }

  function SuccessNames(status: map<string, FeedStatus>): set<string>
  {
    set name | name in status && status[name].Success?
  }

  function ErrorNames(status: map<string, FeedStatus>): set<string>
  {
    set name | name in status && status[name].Error?
  }

  function PendingNames(status: map<string, FeedStatus>): set<string>
  {
    set name | name in status && status[name].Pending?
  }

  /** Every feed of the status map is in exactly one of the three states. */
  lemma NamesPartition(status: map<string, FeedStatus>)
    ensures |SuccessNames(status)| + |ErrorNames(status)| + |PendingNames(status)| == |status|
  {
    var s, e, p := SuccessNames(status), ErrorNames(status), PendingNames(status);
    assert s * e == {};
    assert |s + e| == |s| + |e|;
    assert (s + e) * p == {};
    assert |s + e + p| == |s + e| + |p|;
    assert s + e + p == status.Keys;
  }

  /** The counts `updateSourceStatus` shows: feeds in `success` and feeds in
      `error`; pending feeds are in neither, so the two add up to the number
      of feeds exactly when none is pending. */
  function Tally(status: map<string, FeedStatus>): (r: (nat, nat))
    ensures r.0 == |SuccessNames(status)| && r.1 == |ErrorNames(status)|
    ensures r.0 + r.1 + |PendingNames(status)| == |status|
    ensures r.0 + r.1 == |status| <==> forall name :: name in status ==> !status[name].Pending?
  {
    NamesPartition(status);
    assert (forall name :: name in status ==> !status[name].Pending?) <==> PendingNames(status) == {} by {
      if PendingNames(status) != {} {
        var name :| name in PendingNames(status);
        assert name in status && status[name].Pending?;
      } else {
        forall name | name in status
          ensures !status[name].Pending?
        {
          assert name !in PendingNames(status);
        }
      }
    }
    (|SuccessNames(status)|, |ErrorNames(status)|)
  }
}
