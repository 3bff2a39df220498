/** `fetchFeed` (app.js) without the network: the conversion service's
    answer is an input, and what the function computes from it is the list of
    normalised articles together with the status record it stores for the feed. */
module Feeds {
  import opened Prelude
  import opened JsStrings
  import opened Thumbnails

  /** `CONFIG.maxArticlesPerFeed`. */
  const MaxArticlesPerFeed: nat := 10
  /** The largest magnitude of a valid ECMAScript time value, in milliseconds. */
  const MaxTimeValue: int := 8_640_000_000_000_000

  const NoItemsMessage := "No items found"
  /** The message of the RangeError `toISOString` throws for an Invalid
      Date, in the wording of the V8 engine; other engines word it
      differently, and app.js only stores it in the feed's status. */
  const InvalidTimeMessage := "Invalid time value"

  /** A feed descriptor of the source catalog. */
  datatype Feed = Feed(name: string, rss: string)

  /** A date field of a raw item, as `new Date(field)` sees it: `Absent` when
      the field is falsy (missing or ""), `Unparsable` for text that parses to
      an Invalid Date, `At(ms)` for text denoting the time value `ms`. */
  datatype DateField = Absent | Unparsable | At(ms: int)

  /** One element of the `items` array returned by the conversion service. */
  datatype RawItem = RawItem(
    title: Option<string>,
    description: Option<string>,
    content: Option<string>,
    link: Option<string>,
    pubDate: DateField,
    isoDate: DateField,
    author: Option<string>,
    thumbnail: Option<string>,
    guid: Option<string>)

  /** A normalised article; `pubDate` is the time value its ISO text denotes. */
  datatype Article = Article(
    title: string,
    description: string,
    link: string,
    source: string,
    category: string,
    pubDate: int,
    author: string,
    thumbnail: Option<string>,
    guid: Option<string>)

  /** What one request to the conversion service comes to: a rejected `fetch`
      or a failing `response.json()` (with the error's message), a response
      whose `ok` is false, or a parsed body with or without `items`. */
  datatype Response = Rejected(message: string) | HttpError(status: nat) | Body(items: Option<seq<RawItem>>)

  /** A feed status record; `lastFetch` is the time of the fetch. */
  datatype FeedStatus = Pending | Success(count: nat, lastFetch: int) | Error(message: string, lastFetch: int)

  /** The value `fetchFeed` resolves to, and the status it records for the feed. */
  datatype Fetched = Fetched(articles: seq<Article>, status: FeedStatus)

  /** TimeClip: `new Date(ms)` is valid only within the time value range. */
  function TimeClip(ms: int): Option<int>
  {
    if -MaxTimeValue <= ms <= MaxTimeValue then Some(ms) else None
  }

  /** The time of `new Date(item.pubDate || item.isoDate || Date.now())`,
      or None for an Invalid Date. */
  function PublishTime(item: RawItem, now: int): (r: Option<int>)
    ensures r.Some? ==> -MaxTimeValue <= r.value <= MaxTimeValue
    ensures item.pubDate.At? ==> r == TimeClip(item.pubDate.ms)
    ensures item.pubDate.At? && -MaxTimeValue <= item.pubDate.ms <= MaxTimeValue ==> r == Some(item.pubDate.ms)
    ensures item.pubDate.At? && !(-MaxTimeValue <= item.pubDate.ms <= MaxTimeValue) ==> r.None?
    ensures item.pubDate.Unparsable? ==> r.None?
    ensures item.pubDate.Absent? && item.isoDate.At? ==> r == TimeClip(item.isoDate.ms)
    ensures item.pubDate.Absent? && item.isoDate.Unparsable? ==> r.None?
    ensures item.pubDate.Absent? && item.isoDate.Absent? ==> r == TimeClip(now)
  {
    var d := if !item.pubDate.Absent? then item.pubDate else item.isoDate;
    match d
    case Absent => TimeClip(now)
    case Unparsable => None
    case At(ms) => TimeClip(ms)
  }

  /** The object the `items.map` callback builds for one item; `Err` when its
      date is invalid, for then `toISOString` throws. */
  function Normalize(item: RawItem, feed: Feed, category: string, now: int): Result<Article>
  {
    match PublishTime(item, now)
    case None => Err(InvalidTimeMessage)
    case Some(t) =>
      Ok(Article(
        Or(item.title, "Untitled"),
        Or(item.description, Or(item.content, "No description available")),
        Or(item.link, feed.rss),
        feed.name,
        category,
        t,
        Or(item.author, "Unknown"),
        if Truthy(item.thumbnail) then item.thumbnail else GetThumbFromDescription(item.description),
        if Truthy(item.guid) then item.guid else item.link))
  }

  /** `items.map(...)`: the articles in item order, or the first error thrown. */
  function NormalizeAll(items: seq<RawItem>, feed: Feed, category: string, now: int): (r: Result<seq<Article>>)
    ensures r.Ok? ==> |r.value| == |items|
    ensures r.Ok? ==> forall k :: 0 <= k < |items| ==> Normalize(items[k], feed, category, now) == Ok(r.value[k])
    ensures r.Err? <==> exists k :: 0 <= k < |items| && PublishTime(items[k], now).None?
    ensures r.Err? ==> r.message == InvalidTimeMessage
    decreases |items|
  {
    if items == [] then Ok([])
    else match Normalize(items[0], feed, category, now)
      case Err(m) => Err(m)
      case Ok(a) =>
        match NormalizeAll(items[1..], feed, category, now)
        case Err(m) =>
          assert forall k :: 0 <= k < |items| - 1 ==> items[1..][k] == items[k + 1];
          Err(m)
        case Ok(rest) =>
          assert forall k :: 1 <= k < |items| ==> items[k] == items[1..][k - 1];
          Ok([a] + rest)
  }

  /** The message of `new Error(`HTTP ${response.status}`)`. */
  function HttpMessage(status: nat): string
  {
    "HTTP " + NatToString(status)
  }

  /** `fetchFeed(feed, category)` for a given answer of the service, all
      clock readings being `now`. */
  function FeedOutcome(feed: Feed, category: string, response: Response, now: int): (r: Fetched)
    ensures |r.articles| <= MaxArticlesPerFeed
    ensures !r.status.Pending? && r.status.lastFetch == now
    ensures r.status.Success? ==> r.status.count == |r.articles|
    ensures r.status.Error? ==> r.articles == []
    ensures forall a :: a in r.articles ==> a.source == feed.name && a.category == category
  {
    match response
    case Rejected(m) => Fetched([], Error(m, now))
    case HttpError(code) => Fetched([], Error(HttpMessage(code), now))
    case Body(None) => Fetched([], Error(NoItemsMessage, now))
    case Body(Some(items)) =>
      var taken := if |items| <= MaxArticlesPerFeed then items else items[..MaxArticlesPerFeed];
      match NormalizeAll(taken, feed, category, now)
      case Ok(articles) =>
        assert forall a :: a in articles ==> exists k :: 0 <= k < |taken| && Normalize(taken[k], feed, category, now) == Ok(a);
        Fetched(articles, Success(|articles|, now))
      case Err(m) => Fetched([], Error(m, now))
  }

  /** When every item taken has a valid date, the feed yields one article per
      item for the first `MaxArticlesPerFeed` items, in response order, and
      records success with that count. */
  lemma {:induction false} FeedTakesFirstItems(feed: Feed, category: string, items: seq<RawItem>, now: int)
    requires forall k :: 0 <= k < |items| && k < MaxArticlesPerFeed ==> PublishTime(items[k], now).Some?
    ensures var r := FeedOutcome(feed, category, Body(Some(items)), now);
      && |r.articles| == (if |items| <= MaxArticlesPerFeed then |items| else MaxArticlesPerFeed)
      && r.status == Success(|r.articles|, now)
      && forall k :: 0 <= k < |r.articles| ==> Normalize(items[k], feed, category, now) == Ok(r.articles[k])
  {
    var taken := if |items| <= MaxArticlesPerFeed then items else items[..MaxArticlesPerFeed];
    assert forall k :: 0 <= k < |taken| ==> taken[k] == items[k];
    assert NormalizeAll(taken, feed, category, now).Ok?;
  }

  /** One taken item whose date is invalid makes the whole feed an error
      with the RangeError's message and no articles, even when the other
      items are fine; items past the cap are never looked at. */
  lemma {:induction false} InvalidDateFailsFeed(feed: Feed, category: string, items: seq<RawItem>, now: int, k: nat)
    requires k < |items| && k < MaxArticlesPerFeed && PublishTime(items[k], now).None?
    ensures FeedOutcome(feed, category, Body(Some(items)), now) == Fetched([], Error(InvalidTimeMessage, now))
  {
    var taken := if |items| <= MaxArticlesPerFeed then items else items[..MaxArticlesPerFeed];
    assert taken[k] == items[k];
  }

  /** The status a fetch records: an error carrying the thrown message, the
      HTTP status or "No items found", with no articles; success otherwise. */
  lemma StatusOutcomes(feed: Feed, category: string, response: Response, now: int)
    ensures var r := FeedOutcome(feed, category, response, now);
      && (response.Rejected? ==> r == Fetched([], Error(response.message, now)))
      && (response.HttpError? ==> r == Fetched([], Error(HttpMessage(response.status), now)))
      && (response == Body(None) ==> r == Fetched([], Error(NoItemsMessage, now)))
      && (response == Body(Some([])) ==> r == Fetched([], Success(0, now)))
  {
  }

  /** Every article carries its feed's name and category and a non-empty
      title, description and author; each field keeps the item's own value
      when that is truthy and otherwise takes its documented fallback. */
  lemma ArticleFields(item: RawItem, feed: Feed, category: string, now: int)
    requires PublishTime(item, now).Some?
    ensures Normalize(item, feed, category, now).Ok?
    ensures var a := Normalize(item, feed, category, now).value;
      && a.source == feed.name && a.category == category
      && a.pubDate == PublishTime(item, now).value
      && a.title != [] && a.description != [] && a.author != []
      && (Truthy(item.title) ==> a.title == item.title.value)
      && (!Truthy(item.title) ==> a.title == "Untitled")
      && (Truthy(item.description) ==> a.description == item.description.value)
      && (!Truthy(item.description) && Truthy(item.content) ==> a.description == item.content.value)
      && (!Truthy(item.description) && !Truthy(item.content) ==> a.description == "No description available")
      && (Truthy(item.link) ==> a.link == item.link.value)
      && (!Truthy(item.link) ==> a.link == feed.rss)
      && (Truthy(item.author) ==> a.author == item.author.value)
      && (!Truthy(item.author) ==> a.author == "Unknown")
      && (Truthy(item.guid) ==> a.guid == item.guid)
      && (!Truthy(item.guid) ==> a.guid == item.link)
  {
  }

  /** An item's own thumbnail wins; otherwise the thumbnail is extracted from
      its description and never from its content: two items that differ only
      in `content` get the same thumbnail. */
  lemma ThumbnailPrecedence(item: RawItem, content: Option<string>, feed: Feed, category: string, now: int)
    requires PublishTime(item, now).Some?
    ensures var a := Normalize(item, feed, category, now).value;
      && (Truthy(item.thumbnail) ==> a.thumbnail == item.thumbnail)
      && (!Truthy(item.thumbnail) ==> a.thumbnail == GetThumbFromDescription(item.description))
      && Normalize(item.(content := content), feed, category, now).value.thumbnail == a.thumbnail
  {
  }

  /** A feed answering one item that has only a title: every other field
      takes its fallback, the date is the fetch time, and the feed succeeds
      with a count of one. */
  lemma TitleOnlyItemExample(now: int)
    requires -MaxTimeValue <= now <= MaxTimeValue
    ensures FeedOutcome(Feed("A", "https://a.example/rss"), "tech",
      Body(Some([RawItem(Some("X"), None, None, None, Absent, Absent, None, None, None)])), now)
      == Fetched([Article("X", "No description available", "https://a.example/rss", "A", "tech", now, "Unknown", None, None)],
                 Success(1, now))
  {
  }
}
