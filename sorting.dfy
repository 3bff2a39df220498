/** The sort in `refreshNews` (app.js): `Array.prototype.sort` with the
    comparator `new Date(b.pubDate) - new Date(a.pubDate)`, newest first.
    The built-in sort is stable, so articles with the same date keep their
    relative order; the function below is an insertion sort with that order. */
module Sorting {
  import opened Feeds
  import opened Deduplication

  ghost predicate SortedByDateDesc(s: seq<Article>)
  {
    forall i, j :: 0 <= i < j < |s| ==> s[i].pubDate >= s[j].pubDate
  }

  /** Places `x`, which came before every element of `s` in the input, ahead
      of the first element that is not newer than it. */
  function InsertByDate(x: Article, s: seq<Article>): seq<Article>
    decreases |s|
  {
    if s == [] || s[0].pubDate <= x.pubDate then [x] + s
    else [s[0]] + InsertByDate(x, s[1..])
  }

  lemma {:induction false} InsertByDatePermutes(x: Article, s: seq<Article>)
    ensures multiset(InsertByDate(x, s)) == multiset(s) + multiset{x}
    decreases |s|
  {
    if s != [] && s[0].pubDate > x.pubDate {
      InsertByDatePermutes(x, s[1..]);
      assert s == [s[0]] + s[1..];
    }
  }

  /** Inserting never introduces a date later than every input date. */
  lemma {:induction false} InsertByDateBounded(x: Article, s: seq<Article>, b: int)
    requires x.pubDate <= b && forall k :: 0 <= k < |s| ==> s[k].pubDate <= b
    ensures forall k :: 0 <= k < |InsertByDate(x, s)| ==> InsertByDate(x, s)[k].pubDate <= b
    decreases |s|
  {
    if s != [] && s[0].pubDate > x.pubDate {
      InsertByDateBounded(x, s[1..], b);
    }
  }

  lemma {:induction false} InsertByDateSorted(x: Article, s: seq<Article>)
    requires SortedByDateDesc(s)
    ensures SortedByDateDesc(InsertByDate(x, s))
    decreases |s|
  {
    if s != [] && s[0].pubDate > x.pubDate {
      var t := InsertByDate(x, s[1..]);
      InsertByDateSorted(x, s[1..]);
      InsertByDateBounded(x, s[1..], s[0].pubDate);
      var r := [s[0]] + t;
      assert InsertByDate(x, s) == r;
      forall i, j | 0 <= i < j < |r|
        ensures r[i].pubDate >= r[j].pubDate
      {
        assert r[j] == t[j - 1];
        if i > 0 {
          assert r[i] == t[i - 1];
        }
      }
    }
  }

  /** The order `sort` leaves the articles in. */
  function SortByDateDesc(s: seq<Article>): (r: seq<Article>)
    ensures SortedByDateDesc(r)
    ensures multiset(r) == multiset(s)
    decreases |s|
  {
    if s == [] then []
    else
      assert s == [s[0]] + s[1..];
      InsertByDateSorted(s[0], SortByDateDesc(s[1..]));
      InsertByDatePermutes(s[0], SortByDateDesc(s[1..]));
      InsertByDate(s[0], SortByDateDesc(s[1..]))
  }

  /** The sort neither adds, drops nor duplicates an article. */
  lemma SortKeepsElements(s: seq<Article>)
    ensures |SortByDateDesc(s)| == |s|
    ensures forall a :: a in SortByDateDesc(s) <==> a in s
  {
    var r := SortByDateDesc(s);
    assert |r| == |multiset(r)| == |multiset(s)| == |s|;
    forall a
      ensures a in r <==> a in s
    {
      assert a in r <==> a in multiset(r);
      assert a in s <==> a in multiset(s);
    }
  }

  /** The articles of `s` dated `d`, in their order in `s`. */
  function PublishedAt(s: seq<Article>, d: int): seq<Article>
    decreases |s|
  {
    if s == [] then []
    else (if s[0].pubDate == d then [s[0]] else []) + PublishedAt(s[1..], d)
  }

  lemma PublishedAtCons(a: Article, s: seq<Article>, d: int)
    ensures PublishedAt([a] + s, d) == (if a.pubDate == d then [a] else []) + PublishedAt(s, d)
  {
    assert ([a] + s)[1..] == s;
  }

  lemma {:induction false} InsertByDateStable(x: Article, s: seq<Article>, d: int)
    ensures PublishedAt(InsertByDate(x, s), d) == (if x.pubDate == d then [x] else []) + PublishedAt(s, d)
    decreases |s|
  {
    if s == [] || s[0].pubDate <= x.pubDate {
      PublishedAtCons(x, s, d);
    } else {
      var t := InsertByDate(x, s[1..]);
      assert InsertByDate(x, s) == [s[0]] + t;
      InsertByDateStable(x, s[1..], d);
      PublishedAtCons(s[0], t, d);
      assert s == [s[0]] + s[1..];
      PublishedAtCons(s[0], s[1..], d);
      if x.pubDate == d {
        assert s[0].pubDate != d;
      }
    }
  }

  /** Stability: for every date, the articles with that date come out in
      the order they went in.  With sortedness and the permutation property
      this pins the result down completely. */
  lemma {:induction false} SortIsStable(s: seq<Article>, d: int)
    ensures PublishedAt(SortByDateDesc(s), d) == PublishedAt(s, d)
    decreases |s|
  {
    if s != [] {
      SortIsStable(s[1..], d);
      InsertByDateStable(s[0], SortByDateDesc(s[1..]), d);
    }
  }

  lemma {:induction false} InsertByDateKeys(x: Article, s: seq<Article>, key: Article -> string)
    ensures KeysOf(InsertByDate(x, s), key) == KeysOf(s, key) + {key(x)}
    decreases |s|
  {
    if s == [] || s[0].pubDate <= x.pubDate {
      KeysOfCons(x, s, key);
    } else {
      InsertByDateKeys(x, s[1..], key);
      KeysOfCons(s[0], InsertByDate(x, s[1..]), key);
      assert s == [s[0]] + s[1..];
      KeysOfCons(s[0], s[1..], key);
    }
  }

  lemma {:induction false} InsertByDateDistinct(x: Article, s: seq<Article>, key: Article -> string)
    requires DistinctKeys(s, key) && key(x) !in KeysOf(s, key)
    ensures DistinctKeys(InsertByDate(x, s), key)
    decreases |s|
  {
    if s == [] || s[0].pubDate <= x.pubDate {
      DistinctKeysCons(x, s, key);
    } else {
      assert s == [s[0]] + s[1..];
      DistinctKeysCons(s[0], s[1..], key);
      KeysOfCons(s[0], s[1..], key);
      InsertByDateDistinct(x, s[1..], key);
      InsertByDateKeys(x, s[1..], key);
      DistinctKeysCons(s[0], InsertByDate(x, s[1..]), key);
    }
  }

  /** Sorting keeps the set of keys. */
  lemma SortKeepsKeys(s: seq<Article>, key: Article -> string)
    ensures KeysOf(SortByDateDesc(s), key) == KeysOf(s, key)
  {
    KeysOfPermutation(SortByDateDesc(s), s, key);
  }

  /** Keys that were distinct stay distinct through the sort. */
  lemma {:induction false} SortKeepsDistinctKeys(s: seq<Article>, key: Article -> string)
    requires DistinctKeys(s, key)
    ensures DistinctKeys(SortByDateDesc(s), key)
    decreases |s|
  {
    if s != [] {
      var rest := SortByDateDesc(s[1..]);
      assert SortByDateDesc(s) == InsertByDate(s[0], rest);
      assert s == [s[0]] + s[1..];
      DistinctKeysCons(s[0], s[1..], key);
      SortKeepsDistinctKeys(s[1..], key);
      KeysOfPermutation(rest, s[1..], key);
      InsertByDateDistinct(s[0], rest, key);
    }
  }
}
