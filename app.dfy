/** The application state of app.js and the operations that update it:
    loading the source catalog, fetching one feed, a whole refresh cycle
    (reset, fetch every feed, merge, deduplicate, sort, re-filter), and the
    filter and search handlers.  Network answers and the clock are inputs. */
module App {
  import opened Prelude
  import opened JsStrings
  import opened Feeds
  import opened Deduplication
  import opened Sorting
  import opened Filtering
  import opened Display

  /** One entry of `sources.topics`: a category and the feeds declared under it. */
  datatype Topic = Topic(category: string, feeds: seq<Feed>)

  /** One call `fetchFeed(feed, category)` made by a refresh. */
  datatype Job = Job(feed: Feed, category: string)

  function JobsOf(t: Topic): seq<Job>
  {
    seq(|t.feeds|, i requires 0 <= i < |t.feeds| => Job(t.feeds[i], t.category))
  }

  /** The calls of a refresh, in the order the nested `forEach` makes them:
      categories in entry order, feeds in declaration order. */
  function Jobs(topics: seq<Topic>): seq<Job>
    decreases |topics|
  {
    if topics == [] then [] else Jobs(topics[..|topics| - 1]) + JobsOf(topics[|topics| - 1])
  }

  lemma JobsSnoc(topics: seq<Topic>, t: int)
    requires 0 <= t < |topics|
    ensures Jobs(topics[..t + 1]) == Jobs(topics[..t]) + JobsOf(topics[t])
  {
    assert topics[..t + 1][..t] == topics[..t];
  }

  /** The calls for a prefix of the catalog are a prefix of all calls. */
  lemma {:induction false} JobsPrefix(topics: seq<Topic>, t: int)
    requires 0 <= t <= |topics|
    ensures Jobs(topics[..t]) <= Jobs(topics)
    decreases |topics| - t
  {
    if t < |topics| {
      JobsSnoc(topics, t);
      JobsPrefix(topics, t + 1);
    } else {
      assert topics[..t] == topics;
    }
  }

  /** The position of feed `f` of category `t` among all calls. */
  lemma JobAt(topics: seq<Topic>, t: int, f: int)
    requires 0 <= t < |topics| && 0 <= f < |topics[t].feeds|
    ensures |Jobs(topics[..t])| + f < |Jobs(topics)|
    ensures Jobs(topics)[|Jobs(topics[..t])| + f] == Job(topics[t].feeds[f], topics[t].category)
  {
    JobsSnoc(topics, t);
    JobsPrefix(topics, t + 1);
    assert Jobs(topics[..t + 1])[|Jobs(topics[..t])| + f] == JobsOf(topics[t])[f];
  }

  /** What the calls of a refresh resolve to, in call order, `responses[i]`
      being the service's answer to the i-th call. */
  function Outcomes(jobs: seq<Job>, responses: seq<Response>, now: int): (r: seq<Fetched>)
    requires |jobs| == |responses|
    ensures |r| == |jobs|
  {
    seq(|jobs|, i requires 0 <= i < |jobs| => FeedOutcome(jobs[i].feed, jobs[i].category, responses[i], now))
  }

  /** The values the calls' promises resolve to: their article lists. */
  function ArticleLists(outcomes: seq<Fetched>): (r: seq<seq<Article>>)
    ensures |r| == |outcomes|
    decreases |outcomes|
  {
    if outcomes == [] then []
    else ArticleLists(outcomes[..|outcomes| - 1]) + [outcomes[|outcomes| - 1].articles]
  }

  /** `feedStatus` after the calls completed in call order on an emptied
      map: each call writes its own feed's entry. */
  function StatusAfter(jobs: seq<Job>, outcomes: seq<Fetched>): map<string, FeedStatus>
    requires |jobs| == |outcomes|
    decreases |jobs|
  {
    if jobs == [] then map[]
    else
      var n := |jobs| - 1;
      StatusAfter(jobs[..n], outcomes[..n])[jobs[n].feed.name := outcomes[n].status]
  }

  /** The concatenation of the calls' article lists, in call order. */
  function Concat(results: seq<seq<Article>>): seq<Article>
    decreases |results|
  {
    if results == [] then [] else Concat(results[..|results| - 1]) + results[|results| - 1]
  }

  /** `appState.articles` at the end of a refresh. */
  function RefreshedArticles(results: seq<seq<Article>>): seq<Article>
  {
    SortByDateDesc(Dedup(Concat(results)))
  }

  lemma OutcomesSnoc(jobs: seq<Job>, outcomes: seq<Fetched>, n: int)
    requires |jobs| == |outcomes| && 0 <= n < |jobs|
    ensures ArticleLists(outcomes[..n + 1]) == ArticleLists(outcomes[..n]) + [outcomes[n].articles]
    ensures StatusAfter(jobs[..n + 1], outcomes[..n + 1]) == StatusAfter(jobs[..n], outcomes[..n])[jobs[n].feed.name := outcomes[n].status]
  {
    assert jobs[..n + 1][..n] == jobs[..n] && outcomes[..n + 1][..n] == outcomes[..n];
  }

  lemma ConcatSnoc(results: seq<seq<Article>>, k: int)
    requires 0 <= k < |results|
    ensures Concat(results[..k + 1]) == Concat(results[..k]) + results[k]
  {
    assert results[..k + 1][..k] == results[..k];
  }

  /** The `results.forEach` of `refreshNews`: the settled calls' article
      lists pushed one after the other onto an empty list. */
  method MergeResults(results: seq<seq<Article>>) returns (merged: seq<Article>)
    ensures merged == Concat(results)
  {
    merged := [];
    var k := 0;
    while k < |results|
      invariant 0 <= k <= |results|
      invariant merged == Concat(results[..k])
    {
      ConcatSnoc(results, k);
      merged := merged + results[k];
      k := k + 1;
    }
    assert results[..k] == results;
  }

  /** `feedStatus` after `initializeFeedStatus`: every declared feed pending. */
  function WithPending(status: map<string, FeedStatus>, jobs: seq<Job>): map<string, FeedStatus>
    decreases |jobs|
  {
    if jobs == [] then status
    else WithPending(status, jobs[..|jobs| - 1])[jobs[|jobs| - 1].feed.name := Pending]
  }

  lemma WithPendingSnoc(status: map<string, FeedStatus>, jobs: seq<Job>, n: int)
    requires 0 <= n < |jobs|
    ensures WithPending(status, jobs[..n + 1]) == WithPending(status, jobs[..n])[jobs[n].feed.name := Pending]
  {
    assert jobs[..n + 1][..n] == jobs[..n];
  }

  /** The names of the feeds the calls are for. */
  function FeedNames(jobs: seq<Job>): set<string>
  {
    set i | 0 <= i < |jobs| :: jobs[i].feed.name
  }

  lemma FeedNamesSnoc(jobs: seq<Job>)
    requires jobs != []
    ensures FeedNames(jobs) == FeedNames(jobs[..|jobs| - 1]) + {jobs[|jobs| - 1].feed.name}
  {
    var n := |jobs| - 1;
    assert forall i :: 0 <= i < n ==> jobs[..n][i] == jobs[i];
  }

  /** Each call's promise resolves to the article list of its own outcome. */
  lemma {:induction false} ArticleListsAt(outcomes: seq<Fetched>, i: int)
    requires 0 <= i < |outcomes|
    ensures ArticleLists(outcomes)[i] == outcomes[i].articles
    decreases |outcomes|
  {
    var n := |outcomes| - 1;
    if i < n {
      ArticleListsAt(outcomes[..n], i);
    }
  }

  /** Every merged article comes from one of the calls. */
  lemma {:induction false} ConcatMember(results: seq<seq<Article>>, a: Article) returns (i: int)
    requires a in Concat(results)
    ensures 0 <= i < |results| && a in results[i]
    decreases |results|
  {
    var n := |results| - 1;
    if a in results[n] {
      return n;
    }
    i := ConcatMember(results[..n], a);
  }

  lemma {:induction false} ConcatLength(results: seq<seq<Article>>, b: nat)
    requires forall i :: 0 <= i < |results| ==> |results[i]| <= b
    ensures |Concat(results)| <= b * |results|
    decreases |results|
  {
    if results != [] {
      var n := |results| - 1;
      ConcatLength(results[..n], b);
      assert |Concat(results)| == |Concat(results[..n])| + |results[n]|;
      assert b * |results| == b * n + b;
    }
  }

  /** The article list a refresh leaves: newest first, one article per title
      key, and every key of the merged lists still present. */
  lemma RefreshedArticlesSpec(results: seq<seq<Article>>)
    ensures SortedByDateDesc(RefreshedArticles(results))
    ensures DistinctKeys(RefreshedArticles(results), TitleKey)
    ensures KeysOf(RefreshedArticles(results), TitleKey) == KeysOf(Concat(results), TitleKey)
  {
    var merged := Concat(results);
    var deduped := Dedup(merged);
    DedupDistinctKeys(merged, TitleKey);
    DedupKeepsKeys(merged, TitleKey);
    SortKeepsDistinctKeys(deduped, TitleKey);
    SortKeepsKeys(deduped, TitleKey);
  }

  /** A refresh shows nothing that was not merged, and no more articles
      than were merged. */
  lemma RefreshedArticlesFromMerged(results: seq<seq<Article>>)
    ensures |RefreshedArticles(results)| <= |Concat(results)|
    ensures forall a :: a in RefreshedArticles(results) ==> a in Concat(results)
  {
    var merged := Concat(results);
    DedupShorter(merged, TitleKey);
    DedupSubset(merged, TitleKey);
    SortKeepsElements(Dedup(merged));
  }

  /** Every article a refresh shows comes from a call that succeeded, and
      carries that call's feed name as source and its category. */
  lemma RefreshedArticleOrigin(jobs: seq<Job>, responses: seq<Response>, now: int, a: Article) returns (i: int)
    requires |jobs| == |responses|
    requires a in RefreshedArticles(ArticleLists(Outcomes(jobs, responses, now)))
    ensures 0 <= i < |jobs|
    ensures a in FeedOutcome(jobs[i].feed, jobs[i].category, responses[i], now).articles
    ensures FeedOutcome(jobs[i].feed, jobs[i].category, responses[i], now).status.Success?
    ensures a.source == jobs[i].feed.name && a.category == jobs[i].category
  {
    var outcomes := Outcomes(jobs, responses, now);
    var results := ArticleLists(outcomes);
    RefreshedArticlesFromMerged(results);
    i := ConcatMember(results, a);
    ArticleListsAt(outcomes, i);
    assert outcomes[i] == FeedOutcome(jobs[i].feed, jobs[i].category, responses[i], now);
  }

  /** A refresh shows at most `maxArticlesPerFeed` articles per call. */
  lemma RefreshedArticlesBound(jobs: seq<Job>, responses: seq<Response>, now: int)
    requires |jobs| == |responses|
    ensures |RefreshedArticles(ArticleLists(Outcomes(jobs, responses, now)))| <= MaxArticlesPerFeed * |jobs|
  {
    var outcomes := Outcomes(jobs, responses, now);
    var results := ArticleLists(outcomes);
    forall i | 0 <= i < |results|
      ensures |results[i]| <= MaxArticlesPerFeed
    {
      ArticleListsAt(outcomes, i);
      assert outcomes[i] == FeedOutcome(jobs[i].feed, jobs[i].category, responses[i], now);
    }
    ConcatLength(results, MaxArticlesPerFeed);
    RefreshedArticlesFromMerged(results);
  }

  /** Outcomes that are all settled at time `now` leave one entry per feed
      name, none of them pending, each stamped `now`. */
  lemma {:induction false} StatusAfterSettled(jobs: seq<Job>, outcomes: seq<Fetched>, now: int)
    requires |jobs| == |outcomes|
    requires forall k :: 0 <= k < |outcomes| ==> !outcomes[k].status.Pending? && outcomes[k].status.lastFetch == now
    ensures StatusAfter(jobs, outcomes).Keys == FeedNames(jobs)
    ensures forall name :: name in StatusAfter(jobs, outcomes) ==>
      !StatusAfter(jobs, outcomes)[name].Pending? && StatusAfter(jobs, outcomes)[name].lastFetch == now
    decreases |jobs|
  {
    if jobs != [] {
      var n := |jobs| - 1;
      assert forall k :: 0 <= k < n ==> outcomes[..n][k] == outcomes[k];
      StatusAfterSettled(jobs[..n], outcomes[..n], now);
      FeedNamesSnoc(jobs);
    }
  }

  /** After a refresh the status map has exactly one entry per declared feed
      name, none of them pending, each stamped with the refresh time; so the
      success and error counts add up to the number of feed names. */
  lemma RefreshStatusSettled(jobs: seq<Job>, responses: seq<Response>, now: int)
    requires |jobs| == |responses|
    ensures StatusAfter(jobs, Outcomes(jobs, responses, now)).Keys == FeedNames(jobs)
    ensures forall name :: name in StatusAfter(jobs, Outcomes(jobs, responses, now)) ==>
      !StatusAfter(jobs, Outcomes(jobs, responses, now))[name].Pending?
      && StatusAfter(jobs, Outcomes(jobs, responses, now))[name].lastFetch == now
    ensures Tally(StatusAfter(jobs, Outcomes(jobs, responses, now))).0
      + Tally(StatusAfter(jobs, Outcomes(jobs, responses, now))).1 == |FeedNames(jobs)|
  {
    var outcomes := Outcomes(jobs, responses, now);
    forall k | 0 <= k < |outcomes|
      ensures !outcomes[k].status.Pending? && outcomes[k].status.lastFetch == now
    {
      assert outcomes[k] == FeedOutcome(jobs[k].feed, jobs[k].category, responses[k], now);
    }
    StatusAfterSettled(jobs, outcomes, now);
  }

  /** The entry of a feed name is written by the last call for that name. */
  lemma {:induction false} StatusAfterLastCall(jobs: seq<Job>, outcomes: seq<Fetched>, i: int)
    requires |jobs| == |outcomes| && 0 <= i < |jobs|
    requires forall j :: i < j < |jobs| ==> jobs[j].feed.name != jobs[i].feed.name
    ensures jobs[i].feed.name in StatusAfter(jobs, outcomes)
    ensures StatusAfter(jobs, outcomes)[jobs[i].feed.name] == outcomes[i].status
    decreases |jobs|
  {
    var n := |jobs| - 1;
    if i < n {
      assert jobs[n].feed.name != jobs[i].feed.name;
      StatusAfterLastCall(jobs[..n], outcomes[..n], i);
      assert jobs[..n][i] == jobs[i] && outcomes[..n][i] == outcomes[i];
    }
  }

  /** A feed whose request fails, whose answer is an HTTP error, whose
      answer has no `items`, or one of whose first ten items has an invalid
      date, and whose name no other feed shares, is reported with its own
      error and contributes no article. */
  lemma FailedFeedIsIsolated(jobs: seq<Job>, responses: seq<Response>, now: int, i: int)
    requires |jobs| == |responses| && 0 <= i < |jobs|
    requires || !responses[i].Body? || responses[i].items.None?
             || exists k :: 0 <= k < |responses[i].items.value| && k < MaxArticlesPerFeed
                  && PublishTime(responses[i].items.value[k], now).None?
    requires forall j :: 0 <= j < |jobs| && j != i ==> jobs[j].feed.name != jobs[i].feed.name
    ensures jobs[i].feed.name in StatusAfter(jobs, Outcomes(jobs, responses, now))
    ensures StatusAfter(jobs, Outcomes(jobs, responses, now))[jobs[i].feed.name] == Error(
      match responses[i]
      case Rejected(m) => m
      case HttpError(code) => HttpMessage(code)
      case Body(items) => if items.None? then NoItemsMessage else InvalidTimeMessage, now)
    ensures forall a :: a in RefreshedArticles(ArticleLists(Outcomes(jobs, responses, now))) ==> a.source != jobs[i].feed.name
  {
    var outcomes := Outcomes(jobs, responses, now);
    StatusAfterLastCall(jobs, outcomes, i);
    if responses[i].Body? && responses[i].items.Some? {
      var items := responses[i].items.value;
      var k :| 0 <= k < |items| && k < MaxArticlesPerFeed && PublishTime(items[k], now).None?;
      InvalidDateFailsFeed(jobs[i].feed, jobs[i].category, items, now, k);
    }
    assert outcomes[i] == FeedOutcome(jobs[i].feed, jobs[i].category, responses[i], now);
    forall a | a in RefreshedArticles(ArticleLists(outcomes))
      ensures a.source != jobs[i].feed.name
    {
      var j := RefreshedArticleOrigin(jobs, responses, now, a);
      if j == i {
        assert false;
      }
    }
  }

  /** Every article of call `j` is merged. */
  lemma {:induction false} ConcatIncludes(results: seq<seq<Article>>, j: int)
    requires 0 <= j < |results|
    ensures forall a :: a in results[j] ==> a in Concat(results)
    decreases |results|
  {
    var n := |results| - 1;
    if j < n {
      ConcatIncludes(results[..n], j);
      assert results[..n][j] == results[j];
    }
  }

  /** Whatever the other feeds answer, a feed whose name no later call
      reuses is reported with its own outcome, and the title of every
      article it fetched is among the titles of the refreshed list (the
      article itself, or the one that came first with the same title). */
  lemma FeedResultIsKept(jobs: seq<Job>, responses: seq<Response>, now: int, j: int)
    requires |jobs| == |responses| && 0 <= j < |jobs|
    requires forall k :: j < k < |jobs| ==> jobs[k].feed.name != jobs[j].feed.name
    ensures jobs[j].feed.name in StatusAfter(jobs, Outcomes(jobs, responses, now))
    ensures StatusAfter(jobs, Outcomes(jobs, responses, now))[jobs[j].feed.name]
      == FeedOutcome(jobs[j].feed, jobs[j].category, responses[j], now).status
    ensures forall a :: a in FeedOutcome(jobs[j].feed, jobs[j].category, responses[j], now).articles ==>
      TitleKey(a) in KeysOf(RefreshedArticles(ArticleLists(Outcomes(jobs, responses, now))), TitleKey)
  {
    var outcomes := Outcomes(jobs, responses, now);
    var results := ArticleLists(outcomes);
    StatusAfterLastCall(jobs, outcomes, j);
    assert outcomes[j] == FeedOutcome(jobs[j].feed, jobs[j].category, responses[j], now);
    ArticleListsAt(outcomes, j);
    ConcatIncludes(results, j);
    RefreshedArticlesSpec(results);
    forall a | a in results[j]
      ensures TitleKey(a) in KeysOf(Concat(results), TitleKey)
    {
      KeyOfMember(Concat(results), a, TitleKey);
    }
  }

  /** `initializeFeedStatus` marks every declared feed pending and leaves the
      entries of other names as they were. */
  lemma {:induction false} WithPendingMarks(status: map<string, FeedStatus>, jobs: seq<Job>)
    ensures WithPending(status, jobs).Keys == status.Keys + FeedNames(jobs)
    ensures forall name :: name in FeedNames(jobs) ==> WithPending(status, jobs)[name] == Pending
    ensures forall name :: name in status && name !in FeedNames(jobs) ==> WithPending(status, jobs)[name] == status[name]
    decreases |jobs|
  {
    if jobs != [] {
      WithPendingMarks(status, jobs[..|jobs| - 1]);
      FeedNamesSnoc(jobs);
    }
  }

  /** The application state `appState`. */
  class AppState {
    /** `sources.topics`, or None while no catalog has been loaded. */
    var sources: Option<seq<Topic>>
    var articles: seq<Article>
    var filteredArticles: seq<Article>
    var currentFilter: string
    var currentSearch: string
    var lastRefresh: Option<int>
    var feedStatus: map<string, FeedStatus>

    /** The displayed list is the current filter applied to the article list. */
    ghost predicate ShowsFilter()
      reads this
    {
      filteredArticles == FilterArticles(articles, currentFilter, currentSearch)
    }

    /** The initial `appState`. */
    constructor()
      ensures sources == None && articles == [] && filteredArticles == []
      ensures currentFilter == AllCategories && currentSearch == ""
      ensures lastRefresh == None && feedStatus == map[]
      ensures ShowsFilter()
    {
      sources := None;
      articles := [];
      filteredArticles := [];
      currentFilter := AllCategories;
      currentSearch := "";
      lastRefresh := None;
      feedStatus := map[];
    }

    /** `loadSources`, given the parsed catalog document or None when
        fetching or parsing it failed (the error is only logged). */
    method LoadSources(document: Option<seq<Topic>>)
      modifies this`sources, this`feedStatus
      ensures document.Some? ==> sources == document && feedStatus == WithPending(old(feedStatus), Jobs(document.value))
      ensures document.None? ==> sources == old(sources) && feedStatus == old(feedStatus)
    {
      if document.Some? {
        sources := document;
        InitializeFeedStatus();
      }
    }

    /** `initializeFeedStatus`: marks every declared feed pending, keeping
        the other entries. */
    method InitializeFeedStatus()
      requires sources.Some?
      modifies this`feedStatus
      ensures feedStatus == WithPending(old(feedStatus), Jobs(sources.value))
    {
      var topics := sources.value;
      ghost var jobs := Jobs(topics);
      ghost var done := 0;
      var t := 0;
      while t < |topics|
        invariant 0 <= t <= |topics|
        invariant done == |Jobs(topics[..t])| <= |jobs|
        invariant feedStatus == WithPending(old(feedStatus), jobs[..done])
      {
        var feeds := topics[t].feeds;
        JobsSnoc(topics, t);
        JobsPrefix(topics, t + 1);
        var f := 0;
        while f < |feeds|
          invariant 0 <= f <= |feeds|
          invariant done == |Jobs(topics[..t])| + f
          invariant |Jobs(topics[..t])| + |feeds| == |Jobs(topics[..t + 1])| <= |jobs|
          invariant feedStatus == WithPending(old(feedStatus), jobs[..done])
        {
          JobAt(topics, t, f);
          WithPendingSnoc(old(feedStatus), jobs, done);
          feedStatus := feedStatus[feeds[f].name := Pending];
          done := done + 1;
          f := f + 1;
        }
        t := t + 1;
      }
      assert topics[..t] == topics;
      assert jobs[..done] == jobs;
    }

    /** `fetchFeed(feed, category)` for the service's answer `response`:
        stores the feed's status and returns its articles. */
    method FetchFeed(feed: Feed, category: string, response: Response, now: int) returns (fetched: seq<Article>)
      modifies this`feedStatus
      ensures fetched == FeedOutcome(feed, category, response, now).articles
      ensures feedStatus == old(feedStatus)[feed.name := FeedOutcome(feed, category, response, now).status]
    {
      var outcome := FeedOutcome(feed, category, response, now);
      feedStatus := feedStatus[feed.name := outcome.status];
      fetched := outcome.articles;
    }

    /** `filterAndDisplayArticles`, without the rendering. */
    method FilterAndDisplay()
      modifies this`filteredArticles
      ensures ShowsFilter()
    {
      var filtered := articles;
      if currentFilter != AllCategories {
        filtered := Keep(filtered, CategoryTest(currentFilter));
      }
      if currentSearch != "" {
        filtered := Keep(filtered, SearchTest(currentSearch));
      }
      filteredArticles := filtered;
    }

    /** `handleFilterChange` for a control whose `data-filter` attribute is
        `filter`: a falsy attribute is ignored. */
    method HandleFilterChange(filter: Option<string>)
      modifies this`currentFilter, this`filteredArticles
      ensures Truthy(filter) ==> currentFilter == filter.value && ShowsFilter()
      ensures !Truthy(filter) ==> currentFilter == old(currentFilter) && filteredArticles == old(filteredArticles)
    {
      if !Truthy(filter) {
        return;
      }
      currentFilter := filter.value;
      FilterAndDisplay();
    }

    /** `handleSearch` once it accepts the event, `input` being the text of
        the search box. */
    method HandleSearch(input: string)
      modifies this`currentSearch, this`filteredArticles
      ensures currentSearch == Trim(ToLower(input)) && ShowsFilter()
    {
      currentSearch := Trim(ToLower(input));
      FilterAndDisplay();
    }

    /** One `fetchFeed` call of `refreshNews`: the call for job `n`, the
        `n` calls before it having completed. */
    method FetchNext(ghost jobs: seq<Job>, responses: seq<Response>, now: int,
                     feed: Feed, category: string, done: seq<seq<Article>>)
      returns (results: seq<seq<Article>>)
      requires |jobs| == |responses| && |done| < |jobs| && jobs[|done|] == Job(feed, category)
      requires done == ArticleLists(Outcomes(jobs, responses, now)[..|done|])
      requires feedStatus == StatusAfter(jobs[..|done|], Outcomes(jobs, responses, now)[..|done|])
      modifies this`feedStatus
      ensures |results| == |done| + 1
      ensures results == ArticleLists(Outcomes(jobs, responses, now)[..|results|])
      ensures feedStatus == StatusAfter(jobs[..|results|], Outcomes(jobs, responses, now)[..|results|])
    {
      ghost var outcomes := Outcomes(jobs, responses, now);
      var n := |done|;
      OutcomesSnoc(jobs, outcomes, n);
      assert outcomes[n] == FeedOutcome(feed, category, responses[n], now);
      var fetched := FetchFeed(feed, category, responses[n], now);
      results := done + [fetched];
    }

    /** The calls `refreshNews` makes for the feeds of topic `t`, the calls
        for the topics before it having completed. */
    method FetchTopic(topics: seq<Topic>, t: int, responses: seq<Response>, now: int, done: seq<seq<Article>>)
      returns (results: seq<seq<Article>>)
      requires 0 <= t < |topics| && |responses| == |Jobs(topics)|
      requires |done| == |Jobs(topics[..t])| <= |Jobs(topics)|
      requires done == ArticleLists(Outcomes(Jobs(topics), responses, now)[..|done|])
      requires feedStatus == StatusAfter(Jobs(topics)[..|done|], Outcomes(Jobs(topics), responses, now)[..|done|])
      modifies this`feedStatus
      ensures |results| == |Jobs(topics[..t + 1])| <= |Jobs(topics)|
      ensures results == ArticleLists(Outcomes(Jobs(topics), responses, now)[..|results|])
      ensures feedStatus == StatusAfter(Jobs(topics)[..|results|], Outcomes(Jobs(topics), responses, now)[..|results|])
    {
      ghost var jobs := Jobs(topics);
      ghost var outcomes := Outcomes(jobs, responses, now);
      var feeds := topics[t].feeds;
      JobsSnoc(topics, t);
      JobsPrefix(topics, t + 1);
      results := done;
      var f := 0;
      while f < |feeds|
        invariant 0 <= f <= |feeds|
        invariant |results| == |done| + f
        invariant |done| + |feeds| == |Jobs(topics[..t + 1])| <= |jobs|
        invariant results == ArticleLists(outcomes[..|results|])
        invariant feedStatus == StatusAfter(jobs[..|results|], outcomes[..|results|])
      {
        JobAt(topics, t, f);
        results := FetchNext(jobs, responses, now, feeds[f], topics[t].category, results);
        f := f + 1;
      }
    }

    /** The fan-out of `refreshNews`: one `fetchFeed` call per declared
        feed, in catalog order, on a status map just emptied; returns what
        each call resolves to, in call order. */
    method FetchAll(topics: seq<Topic>, responses: seq<Response>, now: int) returns (results: seq<seq<Article>>)
      requires |responses| == |Jobs(topics)| && feedStatus == map[]
      modifies this`feedStatus
      ensures results == ArticleLists(Outcomes(Jobs(topics), responses, now))
      ensures feedStatus == StatusAfter(Jobs(topics), Outcomes(Jobs(topics), responses, now))
    {
      ghost var outcomes := Outcomes(Jobs(topics), responses, now);
      results := [];
      var t := 0;
      while t < |topics|
        invariant 0 <= t <= |topics|
        invariant |results| == |Jobs(topics[..t])| <= |Jobs(topics)|
        invariant results == ArticleLists(outcomes[..|results|])
        invariant feedStatus == StatusAfter(Jobs(topics)[..|results|], outcomes[..|results|])
      {
        results := FetchTopic(topics, t, responses, now, results);
        t := t + 1;
      }
      assert topics[..t] == topics;
      assert Jobs(topics)[..|results|] == Jobs(topics) && outcomes[..|results|] == outcomes;
    }

    /** `refreshNews`, `responses[i]` being the service's answer to the i-th
        call and every call completing in call order.  Without a loaded
        catalog, `Object.entries(undefined)` throws after the reset and the
        cycle stops there (`completed` is false). */
    method Refresh(responses: seq<Response>, now: int) returns (completed: bool)
      requires sources.Some? ==> |responses| == |Jobs(sources.value)|
      modifies this`articles, this`feedStatus, this`lastRefresh, this`filteredArticles
      ensures completed == sources.Some?
      ensures !completed ==> articles == [] && feedStatus == map[]
      ensures !completed ==> lastRefresh == old(lastRefresh) && filteredArticles == old(filteredArticles)
      ensures completed ==>
        && articles == RefreshedArticles(ArticleLists(Outcomes(Jobs(sources.value), responses, now)))
        && feedStatus == StatusAfter(Jobs(sources.value), Outcomes(Jobs(sources.value), responses, now))
        && lastRefresh == Some(now)
        && ShowsFilter()
    {
      articles := [];
      feedStatus := map[];
      if sources.None? {
        return false;
      }
      var results := FetchAll(sources.value, responses, now);
      Publish(results, now);
      return true;
    }

    /** The second half of `refreshNews`, once every call has settled: merge
        the results, deduplicate, sort newest first, stamp the refresh time
        and re-apply the filter. */
    method Publish(results: seq<seq<Article>>, now: int)
      modifies this`articles, this`lastRefresh, this`filteredArticles
      ensures articles == RefreshedArticles(results)
      ensures lastRefresh == Some(now)
      ensures ShowsFilter()
    {
      articles := MergeResults(results);
      var deduped := DeduplicateArticles(articles);
      articles := SortByDateDesc(deduped);
      lastRefresh := Some(now);
      FilterAndDisplay();
    }
  }
}
