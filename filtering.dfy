/** The filter logic of `filterAndDisplayArticles` (app.js): a category
    filter (skipped for the sentinel "all") followed by a text search over
    the lower-cased title, description and source (skipped for an empty
    search).  `Array.prototype.filter` is `Keep`. */
module Filtering {
  import opened Prelude
  import opened JsStrings
  import opened Feeds

  const AllCategories := "all"

  /** `s.filter(p)`: the elements satisfying `p`, in their order. */
  function Keep<T>(s: seq<T>, p: T -> bool): seq<T>
    decreases |s|
  {
    if s == [] then []
    else Keep(s[..|s| - 1], p) + (if p(s[|s| - 1]) then [s[|s| - 1]] else [])
  }

  /** `filter` keeps exactly the satisfying positions, in order. */
  lemma {:induction false} KeepSelects<T>(s: seq<T>, p: T -> bool) returns (idx: seq<int>)
    ensures SelectedBy(Keep(s, p), s, idx)
    ensures forall k :: 0 <= k < |idx| ==> p(s[idx[k]])
    ensures forall i :: 0 <= i < |s| && p(s[i]) ==> i in idx
    decreases |s|
  {
    if s == [] {
      return [];
    }
    var n := |s| - 1;
    var sub := KeepSelects(s[..n], p);
    SelectedBySnoc(Keep(s[..n], p), s, sub, n);
    forall k | 0 <= k < |sub|
      ensures p(s[sub[k]])
    {
      assert s[..n][sub[k]] == s[sub[k]];
    }
    forall i | 0 <= i < n && p(s[i])
      ensures i in sub
    {
      assert s[..n][i] == s[i];
    }
    if p(s[n]) {
      assert Keep(s, p) == Keep(s[..n], p) + [s[n]];
      idx := sub + [n];
      assert forall k :: 0 <= k < |sub| ==> idx[k] == sub[k];
    } else {
      assert Keep(s, p) == Keep(s[..n], p);
      idx := sub;
    }
  }

  /** Filtering with pointwise equal predicates gives the same list. */
  lemma {:induction false} KeepExt<T>(s: seq<T>, p: T -> bool, q: T -> bool)
    requires forall x :: p(x) == q(x)
    ensures Keep(s, p) == Keep(s, q)
    decreases |s|
  {
    if s != [] {
      KeepExt(s[..|s| - 1], p, q);
    }
  }

  /** Two filters in a row are one filter on the conjunction. */
  lemma {:induction false} KeepKeep<T>(s: seq<T>, p: T -> bool, q: T -> bool, pq: T -> bool)
    requires forall x :: pq(x) == (p(x) && q(x))
    ensures Keep(Keep(s, p), q) == Keep(s, pq)
    decreases |s|
  {
    if s != [] {
      var n := |s| - 1;
      KeepKeep(s[..n], p, q, pq);
      var k := Keep(s[..n], p);
      if p(s[n]) {
        assert (k + [s[n]])[..|k|] == k;
      } else {
        assert Keep(s, p) == k;
      }
    }
  }

  /** A filter every element passes returns the list unchanged. */
  lemma {:induction false} KeepAll<T>(s: seq<T>, p: T -> bool)
    requires forall k :: 0 <= k < |s| ==> p(s[k])
    ensures Keep(s, p) == s
    decreases |s|
  {
    if s != [] {
      KeepAll(s[..|s| - 1], p);
    }
  }

  /** The search test: the search text occurs in the lower-cased title,
      description or source. */
  predicate MatchesSearch(a: Article, search: string)
  {
    || Contains(ToLower(a.title), search)
    || Contains(ToLower(a.description), search)
    || Contains(ToLower(a.source), search)
  }

  function CategoryTest(filter: string): Article -> bool
  {
    (a: Article) => a.category == filter
  }

  function SearchTest(search: string): Article -> bool
  {
    (a: Article) => MatchesSearch(a, search)
  }

  /** An article is displayed for `filter` and `search` when both tests pass. */
  predicate Shown(a: Article, filter: string, search: string)
  {
    && (filter == AllCategories || a.category == filter)
    && (search == "" || MatchesSearch(a, search))
  }

  function ShownTest(filter: string, search: string): Article -> bool
  {
    (a: Article) => Shown(a, filter, search)
  }

  /** `filtered` as computed from `articles`, `currentFilter` and `currentSearch`. */
  function FilterArticles(articles: seq<Article>, filter: string, search: string): seq<Article>
  {
    var byCategory := if filter != AllCategories then Keep(articles, CategoryTest(filter)) else articles;
    if search != "" then Keep(byCategory, SearchTest(search)) else byCategory
  }

  /** The two filters in sequence are one filter on their conjunction. */
  lemma FilterIsConjunction(articles: seq<Article>, filter: string, search: string)
    ensures FilterArticles(articles, filter, search) == Keep(articles, ShownTest(filter, search))
  {
    var shown := ShownTest(filter, search);
    if filter != AllCategories && search != "" {
      KeepKeep(articles, CategoryTest(filter), SearchTest(search), shown);
    } else if filter != AllCategories {
      KeepExt(articles, CategoryTest(filter), shown);
    } else if search != "" {
      KeepExt(articles, SearchTest(search), shown);
    } else {
      KeepAll(articles, shown);
    }
  }

  /** The displayed list is the subsequence of the article list at exactly
      the positions of the articles that pass both tests; with "all" and an
      empty search that is the whole list. */
  lemma FilterSelectsShown(articles: seq<Article>, filter: string, search: string) returns (idx: seq<int>)
    ensures SelectedBy(FilterArticles(articles, filter, search), articles, idx)
    ensures forall k :: 0 <= k < |idx| ==> Shown(articles[idx[k]], filter, search)
    ensures forall i :: 0 <= i < |articles| && Shown(articles[i], filter, search) ==> i in idx
    ensures filter == AllCategories && search == "" ==> FilterArticles(articles, filter, search) == articles
  {
    FilterIsConjunction(articles, filter, search);
    idx := KeepSelects(articles, ShownTest(filter, search));
  }

  /** Filtering the displayed list again changes nothing. */
  lemma FilterIdempotent(articles: seq<Article>, filter: string, search: string)
    ensures var once := FilterArticles(articles, filter, search);
      FilterArticles(once, filter, search) == once
  {
    var shown := ShownTest(filter, search);
    var once := FilterArticles(articles, filter, search);
    FilterIsConjunction(articles, filter, search);
    FilterIsConjunction(once, filter, search);
    KeepKeep(articles, shown, shown, shown);
  }
}
